/** Where a connection leaves: read top-down from the outermost proxy, or back from the chain its dial recorded
    (core/route.go). */
module ExitResolution {
  import opened Bytes

  datatype Kind = LoadBalance | OtherKind(name: string)

  datatype Proxy = Proxy(name: string, kind: Kind, addr: string)

  /** The formatted exit; Nowhere is the empty string. */
  datatype Exit = Nowhere | ExitName(name: string, kind: Kind, addr: string)

  function NameExit(p: Proxy): Exit { ExitName(p.name, p.kind, p.addr) }

  /** Ordinary groups never unwrap in a circle. */
  ghost predicate Ranked(unwrap: Proxy -> Option<Proxy>, rank: Proxy -> nat) {
    forall p: Proxy :: unwrap(p).Some? ==> rank(unwrap(p).value) < rank(p)
  }

  /** The exit of a proxy: the first load balancer on the way down, or where the way ends. */
  ghost function Through(p: Proxy, unwrap: Proxy -> Option<Proxy>, rank: Proxy -> nat): Exit
    requires Ranked(unwrap, rank)
    decreases rank(p)
  {
    if p.kind == LoadBalance || unwrap(p).None? then NameExit(p) else Through(unwrap(p).value, unwrap, rank)
  }

  method ExitThrough(start: Option<Proxy>, unwrap: Proxy -> Option<Proxy>, ghost rank: Proxy -> nat)
    returns (exit: Exit)
    requires Ranked(unwrap, rank)
    ensures exit == if start.None? then Nowhere else Through(start.value, unwrap, rank)
  {
    var proxy := start;
    while proxy.Some?
      invariant start.Some? ==> proxy.Some? && Through(proxy.value, unwrap, rank) == Through(start.value, unwrap, rank)
      decreases if proxy.Some? then rank(proxy.value) + 1 else 0
    {
      if proxy.value.kind == LoadBalance { return NameExit(proxy.value); }
      var next := unwrap(proxy.value);
      if next.None? { return NameExit(proxy.value); }
      proxy := next;
    }
    exit := Nowhere;
  }

  predicate Balances(table: map<string, Proxy>, name: string) { name in table && table[name].kind == LoadBalance }

  /** The last load balancer past the first hop of a chain, if it has one. */
  function LastBalancer(chains: seq<string>, table: map<string, Proxy>): Option<Proxy>
    ensures LastBalancer(chains, table).Some? <==> exists i :: 0 < i < |chains| && Balances(table, chains[i])
  {
    if |chains| <= 1 then None
    else if Balances(table, chains[|chains| - 1]) then Some(table[chains[|chains| - 1]])
    else LastBalancer(chains[..|chains| - 1], table)
  }

  function OfChains(chains: seq<string>, table: map<string, Proxy>): Exit {
    var balancer := LastBalancer(chains, table);
    if balancer.Some? then NameExit(balancer.value)
    else if chains != [] && chains[0] in table then NameExit(table[chains[0]])
    else Nowhere
  }

  method ExitOfChains(chains: seq<string>, table: map<string, Proxy>) returns (exit: Exit)
    ensures exit == OfChains(chains, table)
  {
    if |chains| == 0 { return Nowhere; }
    var i := |chains|;
    assert chains[..i] == chains;
    while i > 1
      invariant 1 <= i <= |chains|
      invariant LastBalancer(chains[..i], table) == LastBalancer(chains, table)
    {
      i := i - 1;
      assert chains[..i + 1][..i] == chains[..i];
      if chains[i] in table && table[chains[i]].kind == LoadBalance { return NameExit(table[chains[i]]); }
    }
    if chains[0] in table { return NameExit(table[chains[0]]); }
    exit := Nowhere;
  }

  // ----- Agreement -----

  /** A dial from the outermost hop: an ordinary group goes where it unwraps to, a load balancer wherever it likes,
      and the hop that dials out does not unwrap further. */
  ghost predicate Dialed(hops: seq<Proxy>, unwrap: Proxy -> Option<Proxy>) {
    && hops != []
    && (forall i :: 0 <= i < |hops| - 1 ==> hops[i].kind == LoadBalance || unwrap(hops[i]) == Some(hops[i + 1]))
    && (hops[|hops| - 1].kind == LoadBalance || unwrap(hops[|hops| - 1]).None?)
  }

  /** The chain a dial records, from the hop that dialed out to the outermost. */
  function Recorded(hops: seq<Proxy>): seq<string> {
    if hops == [] then [] else Recorded(hops[1..]) + [hops[0].name]
  }

  /** Where the table holds a hop's name, it holds that hop. */
  predicate Consistent(hops: seq<Proxy>, table: map<string, Proxy>) {
    forall h | h in hops :: h.name in table ==> table[h.name] == h
  }

  /** The hop a connection leaves by: the outermost load balancer, or else the hop that dialed out. */
  function Decider(hops: seq<Proxy>): Proxy
    requires hops != []
  {
    if hops[0].kind == LoadBalance || |hops| == 1 then hops[0] else Decider(hops[1..])
  }

  /** A hop further out decides the exit only if it is a load balancer. */
  lemma OuterHop(inner: seq<string>, name: string, table: map<string, Proxy>)
    requires inner != []
    ensures OfChains(inner + [name], table) == if Balances(table, name) then NameExit(table[name])
        else OfChains(inner, table)
  {
    assert (inner + [name])[..|inner|] == inner;
  }

  lemma LoneHop(p: Proxy, table: map<string, Proxy>)
    ensures Recorded([p]) == [p.name]
    ensures OfChains([p.name], table) == if p.name in table then NameExit(table[p.name]) else Nowhere
  {
    assert Recorded([]) + [p.name] == [p.name] && [p][1..] == [];
  }

  lemma InnerChain(hops: seq<Proxy>)
    ensures |Recorded(hops)| == |hops|
  {
  }

  /** The walk ends at the deciding hop. */
  lemma {:induction false} WalkDecides(hops: seq<Proxy>, unwrap: Proxy -> Option<Proxy>, rank: Proxy -> nat)
    requires Ranked(unwrap, rank) && Dialed(hops, unwrap)
    ensures Through(hops[0], unwrap, rank) == NameExit(Decider(hops))
    decreases |hops|
  {
    if |hops| > 1 && hops[0].kind != LoadBalance { WalkDecides(hops[1..], unwrap, rank); }
  }

  /** The chain names a hop the table holds, or nothing. */
  lemma {:induction false} ChainNamesAHop(hops: seq<Proxy>, table: map<string, Proxy>)
    requires hops != [] && Consistent(hops, table)
    ensures var exit := OfChains(Recorded(hops), table);
      exit == Nowhere || exists h :: h in hops && h.name in table && exit == NameExit(h)
    decreases |hops|
  {
    hide OfChains, LastBalancer;
    if |hops| == 1 {
      assert hops == [hops[0]];
      LoneHop(hops[0], table);
    } else {
      InnerChain(hops[1..]);
      OuterHop(Recorded(hops[1..]), hops[0].name, table);
      ChainNamesAHop(hops[1..], table);
    }
  }

  lemma {:induction false} ChainDecides(hops: seq<Proxy>, table: map<string, Proxy>)
    requires hops != [] && Consistent(hops, table) && Decider(hops).name in table
    ensures OfChains(Recorded(hops), table) == NameExit(Decider(hops))
    decreases |hops|
  {
    hide OfChains, LastBalancer;
    if |hops| == 1 {
      assert hops == [hops[0]];
      LoneHop(hops[0], table);
    } else {
      InnerChain(hops[1..]);
      OuterHop(Recorded(hops[1..]), hops[0].name, table);
      if hops[0].kind != LoadBalance { ChainDecides(hops[1..], table); }
    }
  }

  /** The recorded chain names the exit of the walk exactly when the table holds the hop that decides it: names missing
      in between do no harm, a missing deciding load balancer or leaf always does. */
  lemma {:induction false} ExitsAgreeExactly(hops: seq<Proxy>, unwrap: Proxy -> Option<Proxy>, rank: Proxy -> nat,
                                             table: map<string, Proxy>)
    requires Ranked(unwrap, rank) && Dialed(hops, unwrap) && Consistent(hops, table)
    ensures OfChains(Recorded(hops), table) == Through(hops[0], unwrap, rank) <==> Decider(hops).name in table
  {
    hide OfChains, Recorded, Decider, Through;
    WalkDecides(hops, unwrap, rank);
    ChainNamesAHop(hops, table);
    if Decider(hops).name in table { ChainDecides(hops, table); }
  }

  /** With every hop in the table both name the same exit. */
  lemma {:induction false} ExitsAgree(hops: seq<Proxy>, unwrap: Proxy -> Option<Proxy>, rank: Proxy -> nat,
                                      table: map<string, Proxy>)
    requires Ranked(unwrap, rank) && Dialed(hops, unwrap) && Consistent(hops, table)
        && forall h | h in hops :: h.name in table
    ensures OfChains(Recorded(hops), table) == Through(hops[0], unwrap, rank)
  {
    DeciderIsAHop(hops);
    ExitsAgreeExactly(hops, unwrap, rank, table);
  }

  lemma {:induction false} DeciderIsAHop(hops: seq<Proxy>)
    requires hops != []
    ensures Decider(hops) in hops
  {
    if hops[0].kind != LoadBalance && |hops| > 1 { DeciderIsAHop(hops[1..]); }
  }
}
