/** Claims on updates, shared between the host's own updates and mihomo's hook (core/provider.go, core/geo.go). */
module UpdateClaims {

  datatype Resource = Geo(kind: string) | Provider(name: string)

  const GEO_SCOPE := "geo:"
  const PROVIDER_SCOPE := "provider:"

  function Key(r: Resource): string {
    match r
    case Geo(kind) => GEO_SCOPE + kind
    case Provider(name) => PROVIDER_SCOPE + name
  }

  /** Neither two kinds nor the two scopes ever share a key. */
  lemma KeysAreApart(a: Resource, b: Resource)
    requires Key(a) == Key(b)
    ensures a == b
  {
    assert Key(a)[0] == (if a.Geo? then 'g' else 'p') && Key(b)[0] == (if b.Geo? then 'g' else 'p');
    match a
    case Geo(kind) => assert Key(a)[|GEO_SCOPE|..] == kind && Key(b)[|GEO_SCOPE|..] == b.kind;
    case Provider(name) => assert Key(a)[|PROVIDER_SCOPE|..] == name && Key(b)[|PROVIDER_SCOPE|..] == b.name;
  }

  function Claim(claims: map<string, bool>, key: string, fromHook: bool): map<string, bool> {
    if key in claims then claims else claims[key := fromHook]
  }

  function Release(claims: map<string, bool>, key: string): map<string, bool> { claims - {key} }

  function ReleaseHook(claims: map<string, bool>, key: string): map<string, bool> {
    if key in claims && claims[key] then claims - {key} else claims
  }

  /** The table of held claims; true marks one taken for the hook. */
  class Claims {
    var fromHook: map<string, bool>

    constructor ()
      ensures fromHook == map[]
    {
      fromHook := map[];
    }

    method ClaimUpdateAs(key: string, hook: bool) returns (claimed: bool)
      modifies this
      ensures claimed <==> key !in old(fromHook)
      ensures fromHook == Claim(old(fromHook), key, hook)
    {
      if key in fromHook { return false; }
      fromHook := fromHook[key := hook];
      claimed := true;
    }

    method ReleaseUpdate(key: string)
      modifies this
      ensures fromHook == Release(old(fromHook), key)
    {
      fromHook := fromHook - {key};
    }

    method ReleaseHookUpdate(key: string)
      modifies this
      ensures fromHook == ReleaseHook(old(fromHook), key)
    {
      if key in fromHook && fromHook[key] { fromHook := fromHook - {key}; }
    }

    /** onGeoUpdate's effect on the claims when mihomo's updater starts or ends a run. */
    method OnGeoUpdate(kind: string, updating: bool)
      modifies this
      ensures fromHook == if updating then Claim(old(fromHook), Key(Geo(kind)), true)
          else ReleaseHook(old(fromHook), Key(Geo(kind)))
    {
      if updating {
        var claimed := ClaimUpdateAs(GEO_SCOPE + kind, true);
      } else {
        ReleaseHookUpdate(GEO_SCOPE + kind);
      }
    }
  }

  // ----- Every interleaving -----

  /** manual: the host's updates in flight; hooks: the runs mihomo's updater has announced and not yet ended. */
  datatype State = State(claims: map<string, bool>, manual: map<nat, Resource>, hooks: multiset<string>)

  datatype Event = ManualStart(op: nat,
      resource: Resource) | ManualEnd(op: nat) | HookStart(kind: string) | HookEnd(kind: string)

  const START := State(map[], map[], multiset{})

  function Next(s: State, e: Event): State {
    match e
    case ManualStart(op, r) =>
      if op in s.manual || Key(r) in s.claims then s
      else s.(claims := Claim(s.claims, Key(r), false), manual := s.manual[op := r])
    case ManualEnd(op) =>
      if op !in s.manual then s else s.(claims := Release(s.claims, Key(s.manual[op])), manual := s.manual - {op})
    case HookStart(kind) => s.(claims := Claim(s.claims, Key(Geo(kind)), true), hooks := s.hooks + multiset{kind})
    case HookEnd(kind) =>
      if kind !in s.hooks then s
          else s.(claims := ReleaseHook(s.claims, Key(Geo(kind))), hooks := s.hooks - multiset{kind})
  }

  function RunFrom(s: State, events: seq<Event>): State {
    if events == [] then s else Next(RunFrom(s, events[..|events| - 1]), events[|events| - 1])
  }

  function Run(events: seq<Event>): State { RunFrom(START, events) }

  /** The claim on a resource's key, if there is one, is of the right kind. */
  ghost predicate ClaimFits(s: State, r: Resource) {
    && (Key(r) in s.claims && s.claims[Key(r)] ==> r.Geo? && r.kind in s.hooks)
    && (Key(r) in s.claims && !s.claims[Key(r)] ==> exists op :: op in s.manual && s.manual[op] == r)
  }

  ghost predicate Exclusive(s: State) {
    && (forall op | op in s.manual :: Key(s.manual[op]) in s.claims && !s.claims[Key(s.manual[op])])
    && (forall op, other | op in s.manual && other in s.manual && op != other :: s.manual[op] != s.manual[other])
    && (forall r: Resource :: ClaimFits(s, r))
    && (forall key | key in s.claims :: exists r: Resource :: Key(r) == key)
  }

  lemma ManualStartKeeps(s: State, op: nat, r: Resource)
    requires Exclusive(s)
    ensures Exclusive(Next(s, ManualStart(op, r)))
  {
    hide Key;
    var t := Next(s, ManualStart(op, r));
    if t != s {
      forall q: Resource ensures ClaimFits(t, q) {
        assert ClaimFits(s, q);
        if Key(q) == Key(r) { KeysAreApart(q, r); assert t.manual[op] == q; }
        if o :| o in s.manual && s.manual[o] == q { assert t.manual[o] == q; }
      }
    }
  }

  lemma ManualEndKeeps(s: State, op: nat)
    requires Exclusive(s)
    ensures Exclusive(Next(s, ManualEnd(op)))
  {
    hide Key;
    var t := Next(s, ManualEnd(op));
    if t != s {
      var r := s.manual[op];
      forall q: Resource ensures ClaimFits(t, q) {
        assert ClaimFits(s, q);
        if o :| o in s.manual && s.manual[o] == q && Key(q) != Key(r) { assert t.manual[o] == q; }
      }
      forall o | o in t.manual ensures Key(t.manual[o]) in t.claims && !t.claims[Key(t.manual[o])] {
        if Key(s.manual[o]) == Key(r) { KeysAreApart(s.manual[o], r); }
      }
    }
  }

  lemma HookKeeps(s: State, e: Event)
    requires Exclusive(s) && (e.HookStart? || e.HookEnd?)
    ensures Exclusive(Next(s, e))
  {
    hide Key;
    var t := Next(s, e);
    forall q: Resource ensures ClaimFits(t, q) {
      assert ClaimFits(s, q);
      if Key(q) == Key(Geo(e.kind)) { KeysAreApart(q, Geo(e.kind)); }
      if o :| o in s.manual && s.manual[o] == q { assert t.manual[o] == q; }
    }
  }

  /** Safety over every interleaving of the host's updates with the hook's runs. */
  lemma {:induction false} EveryRunIsExclusive(events: seq<Event>)
    ensures Exclusive(Run(events))
  {
    hide Next, Exclusive;
    if events == [] {
      NothingClaimedAtStart();
    } else {
      var before, e := Run(events[..|events| - 1]), events[|events| - 1];
      EveryRunIsExclusive(events[..|events| - 1]);
      match e
      case ManualStart(op, r) => ManualStartKeeps(before, op, r);
      case ManualEnd(op) => ManualEndKeeps(before, op);
      case _ => HookKeeps(before, e);
    }
  }

  lemma NothingClaimedAtStart()
    ensures Exclusive(START) && START.hooks == multiset{}
  {
  }

  lemma RunGoesOn(s: State, events: seq<Event>, e: Event)
    ensures RunFrom(s, []) == s && RunFrom(s, events + [e]) == Next(RunFrom(s, events), e)
  {
    assert (events + [e])[..|events|] == events;
  }

  /** The update can start at once. */
  ghost predicate Startable(s: State, op: nat, r: Resource) {
    var t := Next(s, ManualStart(op, r));
    t.manual == s.manual[op := r] && Key(r) in t.claims && !t.claims[Key(r)] && t.hooks == s.hooks
  }

  /** When an update of the host's ends, and when a hook run ends while none of the host's is in flight, the resource is
      free again. */
  lemma EndsFree(events: seq<Event>, op: nat, kind: string, next: nat)
    requires next !in Run(events).manual
    ensures var s := Run(events);
      op in s.manual ==>
        var t := Next(s, ManualEnd(op));
        t.manual == s.manual - {op} && t.hooks == s.hooks && Startable(t, next, s.manual[op])
    ensures var s := Run(events);
      kind in s.hooks ==>
        var t := Next(s, HookEnd(kind));
        && t.manual == s.manual && t.hooks == s.hooks - multiset{kind}
        && (!ManualOf(s, kind) ==> Startable(t, next, Geo(kind)))
  {
    hide Run, Key;
    EveryRunIsExclusive(events);
    assert ClaimFits(Run(events), Geo(kind));
  }

  /** At most one of the host's updates per resource is in flight, and a second one is refused. */
  lemma OneManualUpdate(events: seq<Event>, op: nat, other: nat)
    requires var s := Run(events); op in s.manual && other !in s.manual
    ensures var s := Run(events); Next(s, ManualStart(other, s.manual[op])) == s
  {
    hide Run;
    EveryRunIsExclusive(events);
  }

  /** A hook run that ends takes nobody's manual claim away. */
  lemma HookEndSparesManual(events: seq<Event>, kind: string, op: nat)
    requires op in Run(events).manual
    ensures var s, t := Run(events), Next(Run(events), HookEnd(kind));
      op in t.manual && Key(s.manual[op]) in t.claims && !t.claims[Key(s.manual[op])]
  {
    hide Run, Key;
    EveryRunIsExclusive(events);
  }

  lemma ClaimIsHeld(s: State, key: string)
    requires Exclusive(s) && key in s.claims
    ensures s.manual != map[] || s.hooks != multiset{}
  {
    hide Key;
    var r: Resource :| Key(r) == key;
    assert ClaimFits(s, r);
  }

  /** An update is refused only while another of that resource is in flight, and no claim outlives the updates. */
  lemma NothingLeftBehind(events: seq<Event>, r: Resource)
    ensures var s := Run(events);
      && (Key(r) in s.claims ==> (exists op :: op in s.manual && s.manual[op] == r) || (r.Geo? && r.kind in s.hooks))
      && (s.manual == map[] && s.hooks == multiset{} ==> s.claims == map[])
  {
    hide Run, Key;
    EveryRunIsExclusive(events);
    var s := Run(events);
    assert ClaimFits(s, r);
    forall key | key in s.claims ensures s.manual != map[] || s.hooks != multiset{} { ClaimIsHeld(s, key); }
  }

  // ----- The hook's side -----

  /** A claim the hook got keeps manual updates out until a hook run of that resource ends. */
  lemma {:induction false} HookClaimHolds(s: State, kind: string, window: seq<Event>)
    requires Exclusive(s) && Key(Geo(kind)) in s.claims && s.claims[Key(Geo(kind))]
    requires HookEnd(kind) !in window
    ensures var t := RunFrom(s, window);
      Exclusive(t) && Key(Geo(kind)) in t.claims && t.claims[Key(Geo(kind))]
          && forall op | op in t.manual :: t.manual[op] != Geo(kind)
  {
    hide Key;
    if window != [] {
      var before, e := RunFrom(s, window[..|window| - 1]), window[|window| - 1];
      HookClaimHolds(s, kind, window[..|window| - 1]);
      match e
      case ManualStart(op, r) => ManualStartKeeps(before, op, r);
      case ManualEnd(op) => ManualEndKeeps(before, op);
      case HookStart(k) => HookKeeps(before, e);
      case HookEnd(k) =>
        HookKeeps(before, e);
        if Key(Geo(k)) == Key(Geo(kind)) { KeysAreApart(Geo(k), Geo(kind)); }
    }
  }

  /** The host's update of a resource kind is in flight. */
  ghost predicate ManualOf(s: State, kind: string) { exists op :: op in s.manual && s.manual[op] == Geo(kind) }

  /** A hook run keeps the host's updates of its resource out until a run of it ends exactly when none was in flight as
      it began. */
  lemma {:induction false} HookKeepsOutExactly(s: State, kind: string)
    requires Exclusive(s)
    ensures (forall window | HookEnd(kind) !in window :: !ManualOf(RunFrom(Next(s, HookStart(kind)), window), kind))
       <==> !ManualOf(s, kind)
  {
    hide Key, Exclusive;
    var t := Next(s, HookStart(kind));
    if ManualOf(s, kind) {
      assert RunFrom(t, []) == t && t.manual == s.manual;
      assert ManualOf(RunFrom(t, []), kind);
    } else {
      HookKeeps(s, HookStart(kind));
      UnclaimedUnlessHeld(s, kind);
      forall window | HookEnd(kind) !in window ensures !ManualOf(RunFrom(t, window), kind) {
        HookClaimHolds(t, kind, window);
      }
    }
  }

  lemma UnclaimedUnlessHeld(s: State, kind: string)
    requires Exclusive(s) && !ManualOf(s, kind)
    ensures var t := Next(s, HookStart(kind)); Key(Geo(kind)) in t.claims && t.claims[Key(Geo(kind))]
  {
    hide Key;
    assert ClaimFits(s, Geo(kind));
  }

  /** A hook run that begins inside any update of the host's holds no claim: once that update ends, the next one starts
      beside it. */
  lemma {:induction false} HookOutlivesManual(s: State, kind: string, op: nat, next: nat)
    requires Exclusive(s) && op in s.manual && s.manual[op] == Geo(kind) && next !in s.manual
    ensures var t := RunFrom(s, [HookStart(kind), ManualEnd(op), ManualStart(next, Geo(kind))]);
      next in t.manual && t.manual[next] == Geo(kind) && kind in t.hooks
  {
    hide Key;
    var e0, e1, e2 := HookStart(kind), ManualEnd(op), ManualStart(next, Geo(kind));
    assert [e0, e1, e2][..2] == [e0, e1] && [e0, e1][..1] == [e0] && [e0][..0] == [];
    assert RunFrom(s, []) == s;
    var s1 := RunFrom(s, [e0]);
    assert s1 == Next(s, e0) && s1.claims == s.claims && s1.manual == s.manual && kind in s1.hooks;
    var s2 := RunFrom(s, [e0, e1]);
    assert s2 == Next(s1, e1) && Key(Geo(kind)) !in s2.claims && next !in s2.manual;
    assert RunFrom(s, [e0, e1, e2]) == Next(s2, e2);
  }
}
