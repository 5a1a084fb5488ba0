/** Masking the general capability layer with a session's layer. */
module Capability {
  import opened Text
  import opened StringOrder

  datatype Kind = Skill | McpService | AgentService

  datatype Origin = General | Session

  /** A named contribution; the value is a skill root, a transport configuration, the
      model of an agent service, or nothing for an in-process endpoint. */
  datatype Contribution<V> = Contribution(name: string, value: V)

  datatype Layer<Root, Config> = Layer(
    skills: seq<Contribution<Root>>, remote: seq<Contribution<Config>>, inProcess: seq<Contribution<()>>,
    agents: seq<Contribution<string>>)

  datatype Binding = Binding(kind: Kind, name: string, origin: Origin)

  datatype Masked = Masked(kind: Kind, name: string)

  datatype Resolved<Root, Config> = Resolved(
    bindings: seq<Binding>, masked: seq<Masked>, roots: seq<Root>, services: seq<Config>,
    endpoints: seq<string>, models: map<string, string>)

  function Names<V>(cs: seq<Contribution<V>>): (r: seq<string>)
    ensures |r| == |cs| && forall i :: 0 <= i < |r| ==> r[i] == cs[i].name
  {
    seq(|cs|, i requires 0 <= i < |cs| => cs[i].name)
  }

  function Values<V>(cs: seq<Contribution<V>>): (r: seq<V>)
    ensures |r| == |cs| && forall i :: 0 <= i < |r| ==> r[i] == cs[i].value
  {
    seq(|cs|, i requires 0 <= i < |cs| => cs[i].value)
  }

  /** The names a layer contributes of one kind; remote and in-process endpoints share
      one namespace. */
  function NamesOf<Root, Config>(l: Layer<Root, Config>, kind: Kind): seq<string> {
    match kind
    case Skill => Names(l.skills)
    case McpService => Names(l.remote) + Names(l.inProcess)
    case AgentService => Names(l.agents)
  }

  predicate Distinct(names: seq<string>) {
    forall i, j :: 0 <= i < j < |names| ==> names[i] != names[j]
  }

  /** No name twice within a layer and kind, which is what its validation refuses. */
  predicate ValidLayer<Root, Config>(l: Layer<Root, Config>) {
    forall kind: Kind :: Distinct(NamesOf(l, kind))
  }

  /** `reject_duplicates`, over one kind. */
  method RejectDuplicates(names: seq<string>) returns (duplicate: Option<string>)
    ensures duplicate.None? <==> Distinct(names)
  {
    var seen: set<string> := {};
    for i := 0 to |names|
      invariant Distinct(names[..i])
      invariant forall n :: n in seen <==> n in names[..i]
    {
      if names[i] in seen {
        var k :| 0 <= k < i && names[..i][k] == names[i];
        assert names[k] == names[i];
        return Some(names[i]);
      }
      seen := seen + {names[i]};
      assert names[..i + 1] == names[..i] + [names[i]];
    }
    assert names[..|names|] == names;
    return None;
  }

  // ----- Masking -----

  function Visible<V>(cs: seq<Contribution<V>>, names: set<string>): seq<Contribution<V>> {
    if cs == [] then []
    else if cs[0].name in names then Visible(cs[1..], names)
    else [cs[0]] + Visible(cs[1..], names)
  }

  function Hidden<V>(kind: Kind, cs: seq<Contribution<V>>, names: set<string>): seq<Masked> {
    if cs == [] then []
    else if cs[0].name in names then [Masked(kind, cs[0].name)] + Hidden(kind, cs[1..], names)
    else Hidden(kind, cs[1..], names)
  }

  function Bound(kind: Kind, names: seq<string>, origin: Origin): (r: seq<Binding>)
    ensures |r| == |names| && forall i :: 0 <= i < |r| ==> r[i] == Binding(kind, names[i], origin)
  {
    seq(|names|, i requires 0 <= i < |names| => Binding(kind, names[i], origin))
  }

  function NameSet(names: seq<string>): set<string> {
    set n | n in names
  }

  function VisibleNames<V>(cs: seq<Contribution<V>>, names: set<string>): seq<string> {
    Names(Visible(cs, names))
  }

  /** What a kind's general entries leave visible, in order. */
  function GeneralNames<Root, Config>(g: Layer<Root, Config>, s: Layer<Root, Config>, kind: Kind): seq<string> {
    var names := NameSet(NamesOf(s, kind));
    match kind
    case Skill => VisibleNames(g.skills, names)
    case McpService => VisibleNames(g.remote, names) + VisibleNames(g.inProcess, names)
    case AgentService => VisibleNames(g.agents, names)
  }

  function HiddenOf<Root, Config>(g: Layer<Root, Config>, s: Layer<Root, Config>, kind: Kind): seq<Masked> {
    var names := NameSet(NamesOf(s, kind));
    match kind
    case Skill => Hidden(kind, g.skills, names)
    case McpService => Hidden(kind, g.remote, names) + Hidden(kind, g.inProcess, names)
    case AgentService => Hidden(kind, g.agents, names)
  }

  function KindBindings<Root, Config>(g: Layer<Root, Config>, s: Layer<Root, Config>, kind: Kind): seq<Binding> {
    Bound(kind, GeneralNames(g, s, kind), General) + Bound(kind, NamesOf(s, kind), Session)
  }

  // ----- Sorting the masked list -----

  function Rank(kind: Kind): nat {
    match kind case Skill => 0 case McpService => 1 case AgentService => 2
  }

  predicate Before(a: Masked, b: Masked) {
    Rank(a.kind) < Rank(b.kind) || (a.kind == b.kind && Less(a.name, b.name))
  }

  function InsertMasked(m: Masked, sorted: seq<Masked>): (r: seq<Masked>)
    ensures forall x :: x in r <==> x == m || x in sorted
  {
    if sorted == [] || Before(m, sorted[0]) then [m] + sorted
    else
      assert sorted == [sorted[0]] + sorted[1..];
      [sorted[0]] + InsertMasked(m, sorted[1..])
  }

  function SortMasked(ms: seq<Masked>): (r: seq<Masked>)
    ensures forall x :: x in r <==> x in ms
  {
    if ms == [] then [] else
      assert ms == [ms[0]] + ms[1..];
      InsertMasked(ms[0], SortMasked(ms[1..]))
  }

  // ----- Resolution -----

  function ModelMap(agents: seq<Contribution<string>>): map<string, string> {
    if agents == [] then map[] else
      ModelMap(agents[..|agents| - 1])[agents[|agents| - 1].name := agents[|agents| - 1].value]
  }

  function Resolve<Root, Config>(g: Layer<Root, Config>, s: Layer<Root, Config>): Resolved<Root, Config> {
    var skills, mcp, agents :=
      NameSet(NamesOf(s, Skill)), NameSet(NamesOf(s, McpService)), NameSet(NamesOf(s, AgentService));
    Resolved(
      KindBindings(g, s, Skill) + KindBindings(g, s, McpService) + KindBindings(g, s, AgentService),
      SortMasked(HiddenOf(g, s, Skill) + HiddenOf(g, s, McpService) + HiddenOf(g, s, AgentService)),
      Values(Visible(g.skills, skills) + s.skills),
      Values(Visible(g.remote, mcp) + s.remote),
      Names(Visible(g.inProcess, mcp) + s.inProcess),
      ModelMap(Visible(g.agents, agents) + s.agents))
  }

  /** One loop of the source over one general list. */
  method Mask<V>(kind: Kind, cs: seq<Contribution<V>>, names: set<string>)
    returns (bound: seq<Binding>, masked: seq<Masked>, kept: seq<Contribution<V>>)
    ensures kept == Visible(cs, names) && masked == Hidden(kind, cs, names)
    ensures bound == Bound(kind, VisibleNames(cs, names), General)
  {
    bound, masked, kept := [], [], [];
    for i := 0 to |cs|
      invariant Visible(cs, names) == kept + Visible(cs[i..], names)
      invariant Hidden(kind, cs, names) == masked + Hidden(kind, cs[i..], names)
      invariant bound == Bound(kind, Names(kept), General)
    {
      assert cs[i..][1..] == cs[i + 1..];
      if cs[i].name in names {
        masked := masked + [Masked(kind, cs[i].name)];
      } else {
        bound := bound + [Binding(kind, cs[i].name, General)];
        kept := kept + [cs[i]];
      }
    }
  }

  method ResolveCapabilities<Root, Config>(g: Layer<Root, Config>, s: Layer<Root, Config>)
    returns (r: Resolved<Root, Config>)
    ensures r == Resolve(g, s)
  {
    var b1, m1, skills := Mask(Skill, g.skills, NameSet(NamesOf(s, Skill)));
    var b2, m2, remote := Mask(McpService, g.remote, NameSet(NamesOf(s, McpService)));
    var b3, m3, inProcess := Mask(McpService, g.inProcess, NameSet(NamesOf(s, McpService)));
    var b4, m4, agents := Mask(AgentService, g.agents, NameSet(NamesOf(s, AgentService)));
    hide Visible, Hidden, SortMasked, ModelMap, NameSet;
    var bindings := b1 + Bound(Skill, NamesOf(s, Skill), Session);
    bindings := bindings + (b2 + b3 + Bound(McpService, NamesOf(s, McpService), Session));
    bindings := bindings + (b4 + Bound(AgentService, NamesOf(s, AgentService), Session));
    assert Bound(McpService, Names(remote), General) + Bound(McpService, Names(inProcess), General)
        == Bound(McpService, Names(remote) + Names(inProcess), General);
    r := Resolved(bindings, SortMasked(m1 + (m2 + m3) + m4), Values(skills + s.skills), Values(remote + s.remote),
                  Names(inProcess + s.inProcess), ModelMap(agents + s.agents));
  }

  // ----- What a session sees -----

  /** `CapabilityResolution::names` */
  function BoundNames(bindings: seq<Binding>, kind: Kind): seq<string> {
    if bindings == [] then []
    else if bindings[0].kind == kind then [bindings[0].name] + BoundNames(bindings[1..], kind)
    else BoundNames(bindings[1..], kind)
  }

  /** `CapabilityResolution::origin` */
  function OriginOf(bindings: seq<Binding>, kind: Kind, name: string): Option<Origin> {
    if bindings == [] then None
    else if bindings[0].kind == kind && bindings[0].name == name then Some(bindings[0].origin)
    else OriginOf(bindings[1..], kind, name)
  }

  lemma {:induction false} BoundNamesConcat(a: seq<Binding>, b: seq<Binding>, kind: Kind)
    ensures BoundNames(a + b, kind) == BoundNames(a, kind) + BoundNames(b, kind)
  {
    if a == [] {
      assert a + b == b;
    } else {
      assert (a + b)[1..] == a[1..] + b;
      BoundNamesConcat(a[1..], b, kind);
    }
  }

  lemma {:induction false} OriginConcat(a: seq<Binding>, b: seq<Binding>, kind: Kind, name: string)
    ensures OriginOf(a + b, kind, name) ==
      if OriginOf(a, kind, name).Some? then OriginOf(a, kind, name) else OriginOf(b, kind, name)
  {
    if a == [] {
      assert a + b == b;
    } else {
      assert (a + b)[1..] == a[1..] + b;
      OriginConcat(a[1..], b, kind, name);
    }
  }

  lemma {:induction false} BoundMeans(k: Kind, names: seq<string>, o: Origin, kind: Kind, name: string)
    ensures BoundNames(Bound(k, names, o), kind) == if k == kind then names else []
    ensures OriginOf(Bound(k, names, o), kind, name) == if k == kind && name in names then Some(o) else None
  {
    if names != [] {
      var rest := Bound(k, names[1..], o);
      assert Bound(k, names, o)[1..] == rest;
      BoundMeans(k, names[1..], o, kind, name);
      assert names == [names[0]] + names[1..];
    }
  }

  lemma KindMeans<Root, Config>(g: Layer<Root, Config>, s: Layer<Root, Config>, k: Kind, kind: Kind, name: string)
    ensures BoundNames(KindBindings(g, s, k), kind) ==
      if k == kind then GeneralNames(g, s, k) + NamesOf(s, k) else []
    ensures OriginOf(KindBindings(g, s, k), kind, name) ==
      if k != kind then None
      else if name in GeneralNames(g, s, k) then Some(General)
      else if name in NamesOf(s, k) then Some(Session) else None
  {
    hide GeneralNames, NamesOf;
    var a, b := Bound(k, GeneralNames(g, s, k), General), Bound(k, NamesOf(s, k), Session);
    BoundNamesConcat(a, b, kind);
    OriginConcat(a, b, kind, name);
    BoundMeans(k, GeneralNames(g, s, k), General, kind, name);
    BoundMeans(k, NamesOf(s, k), Session, kind, name);
  }

  lemma ResolvedBindings<Root, Config>(g: Layer<Root, Config>, s: Layer<Root, Config>, kind: Kind, name: string)
    ensures BoundNames(Resolve(g, s).bindings, kind) == GeneralNames(g, s, kind) + NamesOf(s, kind)
    ensures OriginOf(Resolve(g, s).bindings, kind, name) ==
      if name in GeneralNames(g, s, kind) then Some(General) else if name in NamesOf(s, kind) then Some(Session) else None
  {
    hide KindBindings, GeneralNames, NamesOf, HiddenOf, SortMasked, Visible, ModelMap, NameSet;
    var a, b, c := KindBindings(g, s, Skill), KindBindings(g, s, McpService), KindBindings(g, s, AgentService);
    BoundNamesConcat(a + b, c, kind);
    BoundNamesConcat(a, b, kind);
    OriginConcat(a + b, c, kind, name);
    OriginConcat(a, b, kind, name);
    KindMeans(g, s, Skill, kind, name);
    KindMeans(g, s, McpService, kind, name);
    KindMeans(g, s, AgentService, kind, name);
  }

  lemma ConsNames(name: string, rest: seq<string>)
    ensures Distinct([name] + rest) <==> name !in rest && Distinct(rest)
  {
    DistinctParts([name], rest);
  }

  lemma NamesStep<V>(cs: seq<Contribution<V>>)
    requires cs != []
    ensures Names(cs) == [cs[0].name] + Names(cs[1..])
  {
  }

  lemma VisibleStep<V>(cs: seq<Contribution<V>>, names: set<string>)
    requires cs != []
    ensures VisibleNames(cs, names) ==
      if cs[0].name in names then VisibleNames(cs[1..], names) else [cs[0].name] + VisibleNames(cs[1..], names)
  {
    if cs[0].name !in names {
      NamesStep([cs[0]] + Visible(cs[1..], names));
      assert ([cs[0]] + Visible(cs[1..], names))[1..] == Visible(cs[1..], names);
    }
  }

  lemma {:induction false} VisibleMeans<V>(cs: seq<Contribution<V>>, names: set<string>)
    ensures forall n :: n in VisibleNames(cs, names) <==> n in Names(cs) && n !in names
    ensures Distinct(Names(cs)) ==> Distinct(VisibleNames(cs, names))
  {
    if cs != [] {
      hide Distinct, Names, VisibleNames, Visible;
      VisibleMeans(cs[1..], names);
      NamesStep(cs);
      VisibleStep(cs, names);
      ConsNames(cs[0].name, Names(cs[1..]));
      ConsNames(cs[0].name, VisibleNames(cs[1..], names));
    }
  }

  lemma DistinctParts(a: seq<string>, b: seq<string>)
    ensures Distinct(a + b) <==> Distinct(a) && Distinct(b) && forall n :: n in a ==> n !in b
  {
    var c := a + b;
    assert forall i :: 0 <= i < |a| ==> c[i] == a[i];
    assert forall i :: 0 <= i < |b| ==> c[|a| + i] == b[i];
    if Distinct(c) {
      forall i, j | 0 <= i < j < |b| ensures b[i] != b[j] { assert c[|a| + i] != c[|a| + j]; }
      forall n | n in a ensures n !in b {
        var i :| 0 <= i < |a| && a[i] == n;
        forall j | 0 <= j < |b| ensures b[j] != n { assert c[i] != c[|a| + j]; }
      }
    } else {
      var i, j :| 0 <= i < j < |c| && c[i] == c[j];
      if j < |a| {
        assert a[i] == a[j];
      } else if i < |a| {
        assert a[i] in b by { assert b[j - |a|] == a[i]; }
      } else {
        assert b[i - |a|] == b[j - |a|];
      }
    }
  }

  lemma GeneralMeans<Root, Config>(g: Layer<Root, Config>, s: Layer<Root, Config>, kind: Kind)
    ensures forall n :: n in GeneralNames(g, s, kind) <==> n in NamesOf(g, kind) && n !in NamesOf(s, kind)
    ensures ValidLayer(g) ==> Distinct(GeneralNames(g, s, kind))
  {
    var names := NameSet(NamesOf(s, kind));
    VisibleMeans(g.skills, names);
    VisibleMeans(g.remote, names);
    VisibleMeans(g.inProcess, names);
    VisibleMeans(g.agents, names);
    DistinctParts(Names(g.remote), Names(g.inProcess));
    DistinctParts(VisibleNames(g.remote, names), VisibleNames(g.inProcess, names));
    assert ValidLayer(g) ==> Distinct(NamesOf(g, kind)) && Distinct(NamesOf(g, McpService));
  }

  /** Per kind a session sees the union of both layers, each name once; a name is the
      session's exactly when the session contributes it. */
  lemma ResolutionMasks<Root, Config>(g: Layer<Root, Config>, s: Layer<Root, Config>, kind: Kind, name: string)
    requires ValidLayer(g) && ValidLayer(s)
    ensures Distinct(BoundNames(Resolve(g, s).bindings, kind))
    ensures name in BoundNames(Resolve(g, s).bindings, kind) <==> name in NamesOf(g, kind) || name in NamesOf(s, kind)
    ensures OriginOf(Resolve(g, s).bindings, kind, name) ==
      if name in NamesOf(s, kind) then Some(Session) else if name in NamesOf(g, kind) then Some(General) else None
  {
    hide Resolve, NamesOf, GeneralNames;
    ResolvedBindings(g, s, kind, name);
    GeneralMeans(g, s, kind);
    DistinctParts(GeneralNames(g, s, kind), NamesOf(s, kind));
  }

  lemma NamesConcat<V>(a: seq<Contribution<V>>, b: seq<Contribution<V>>)
    ensures Names(a + b) == Names(a) + Names(b)
  {
  }

  lemma {:induction false} ModelMapMeans(agents: seq<Contribution<string>>)
    requires Distinct(Names(agents))
    ensures forall n :: n in ModelMap(agents) <==> n in Names(agents)
    ensures forall c :: c in agents ==> c.name in ModelMap(agents) && ModelMap(agents)[c.name] == c.value
  {
    if agents != [] {
      var front, last := agents[..|agents| - 1], agents[|agents| - 1];
      assert agents == front + [last];
      NamesConcat(front, [last]);
      NamesStep([last]);
      assert Names([last]) == [last.name];
      hide Names, Distinct;
      DistinctParts(Names(front), Names([last]));
      ModelMapMeans(front);
      assert last.name in Names([last]);
      forall c | c in front ensures c.name != last.name {
        NameOfMember(front, c);
      }
    }
  }

  lemma NameOfMember<V>(cs: seq<Contribution<V>>, c: Contribution<V>)
    requires c in cs
    ensures c.name in Names(cs)
  {
    var i :| 0 <= i < |cs| && cs[i] == c;
    assert Names(cs)[i] == c.name;
  }

  /** Every bound name comes with the value of the layer it is bound from: skill roots
      stand in binding order, and an agent service routes to its own layer's model. */
  lemma ValuesFollowBindings<Root, Config>(g: Layer<Root, Config>, s: Layer<Root, Config>)
    requires ValidLayer(g) && ValidLayer(s)
    ensures var skills := Visible(g.skills, NameSet(NamesOf(s, Skill))) + s.skills;
      BoundNames(Resolve(g, s).bindings, Skill) == Names(skills) && Resolve(g, s).roots == Values(skills)
    ensures var agents := Visible(g.agents, NameSet(NamesOf(s, AgentService))) + s.agents;
      && BoundNames(Resolve(g, s).bindings, AgentService) == Names(agents)
      && (forall c :: c in agents ==> c.name in Resolve(g, s).models && Resolve(g, s).models[c.name] == c.value)
      && (forall n :: n in Resolve(g, s).models <==> n in Names(agents))
  {
    hide ValidLayer, Visible, KindBindings, HiddenOf, SortMasked, ModelMap, BoundNames, OriginOf, NameSet, Distinct;
    ResolvedBindings(g, s, Skill, "");
    ResolvedBindings(g, s, AgentService, "");
    NamesConcat(Visible(g.skills, NameSet(NamesOf(s, Skill))), s.skills);
    NamesConcat(Visible(g.agents, NameSet(NamesOf(s, AgentService))), s.agents);
    ResolutionMasks(g, s, AgentService, "");
    ModelMapMeans(Visible(g.agents, NameSet(NamesOf(s, AgentService))) + s.agents);
  }

  /** The names of the list that are in the set, in order. */
  function Only(names: seq<string>, wanted: set<string>): seq<string> {
    if names == [] then []
    else if names[0] in wanted then [names[0]] + Only(names[1..], wanted)
    else Only(names[1..], wanted)
  }

  lemma {:induction false} OnlyConcat(a: seq<string>, b: seq<string>, wanted: set<string>)
    ensures Only(a + b, wanted) == Only(a, wanted) + Only(b, wanted)
  {
    if a == [] {
      assert a + b == b;
    } else {
      assert (a + b)[1..] == a[1..] + b;
      OnlyConcat(a[1..], b, wanted);
    }
  }

  lemma {:induction false} OnlyAll(a: seq<string>, wanted: set<string>)
    ensures (forall n :: n in a ==> n in wanted) ==> Only(a, wanted) == a
    ensures (forall n :: n in a ==> n !in wanted) ==> Only(a, wanted) == []
  {
    if a != [] {
      OnlyAll(a[1..], wanted);
      assert a == [a[0]] + a[1..];
    }
  }

  lemma OnlyFour(a: seq<string>, b: seq<string>, c: seq<string>, d: seq<string>, wanted: set<string>)
    ensures Only((a + b) + (c + d), wanted) == (Only(a, wanted) + Only(b, wanted)) + (Only(c, wanted) + Only(d, wanted))
  {
    OnlyConcat(a + b, c + d, wanted);
    OnlyConcat(a, b, wanted);
    OnlyConcat(c, d, wanted);
  }

  /** Of four lists without a common name, the outer pair and the inner pair of a
      concatenation can be read off. */
  lemma OnlyPair(a: seq<string>, b: seq<string>, c: seq<string>, d: seq<string>, wanted: set<string>)
    requires forall n :: n in a || n in c ==> n in wanted
    requires forall n :: n in b || n in d ==> n !in wanted
    ensures Only((a + b) + (c + d), wanted) == a + c
    ensures Only((b + a) + (d + c), wanted) == a + c
  {
    hide Only;
    OnlyFour(a, b, c, d, wanted);
    OnlyFour(b, a, d, c, wanted);
    OnlyAll(a, wanted);
    OnlyAll(b, wanted);
    OnlyAll(c, wanted);
    OnlyAll(d, wanted);
    assert (a + []) + (c + []) == a + c && ([] + a) + ([] + c) == a + c;
  }

  lemma OnlyOdd(a: seq<string>, b: seq<string>, c: seq<string>, d: seq<string>)
    requires Distinct((a + b) + (c + d))
    ensures Only((a + b) + (c + d), NameSet(a + c)) == a + c && Only((a + b) + (c + d), NameSet(b + d)) == b + d
  {
    DistinctParts(a + b, c + d);
    DistinctParts(a, b);
    DistinctParts(c, d);
    hide Distinct, Only;
    forall n ensures (n in a || n in b) && (n in c || n in d) ==> false {
      assert n in a || n in b ==> n in a + b;
      assert n in c || n in d ==> n in c + d;
    }
    assert forall n :: n in a + c <==> n in a || n in c;
    assert forall n :: n in b + d <==> n in b || n in d;
    OnlyPair(a, b, c, d, NameSet(a + c));
    OnlyPair(b, a, d, c, NameSet(b + d));
  }

  /** In the shared namespace, the bound names that are remote services are those of the
      configurations, one by one and in order; the others are the in-process endpoints. */
  lemma EndpointsFollowBindings<Root, Config>(g: Layer<Root, Config>, s: Layer<Root, Config>)
    requires ValidLayer(g) && ValidLayer(s)
    ensures var mcp := NameSet(NamesOf(s, McpService));
      var remote, inProcess := Visible(g.remote, mcp) + s.remote, Visible(g.inProcess, mcp) + s.inProcess;
      var bound := BoundNames(Resolve(g, s).bindings, McpService);
      && Only(bound, NameSet(Names(remote))) == Names(remote) && Resolve(g, s).services == Values(remote)
      && Only(bound, NameSet(Names(inProcess))) == Names(inProcess) == Resolve(g, s).endpoints
      && |bound| == |remote| + |inProcess|
  {
    hide ValidLayer, Visible, KindBindings, HiddenOf, SortMasked, ModelMap, BoundNames, OriginOf, NameSet, Distinct, Only;
    var mcp := NameSet(NamesOf(s, McpService));
    ResolvedBindings(g, s, McpService, "");
    ResolutionMasks(g, s, McpService, "");
    NamesConcat(Visible(g.remote, mcp), s.remote);
    NamesConcat(Visible(g.inProcess, mcp), s.inProcess);
    OnlyOdd(VisibleNames(g.remote, mcp), VisibleNames(g.inProcess, mcp), Names(s.remote), Names(s.inProcess));
  }

  // ----- What is masked -----

  predicate SortedMasked(ms: seq<Masked>) {
    forall i, j :: 0 <= i < j < |ms| ==> Before(ms[i], ms[j])
  }

  lemma BeforeOrder(a: Masked, b: Masked, c: Masked)
    ensures a == b || Before(a, b) || Before(b, a)
    ensures Before(a, b) && Before(b, c) ==> Before(a, c)
    ensures !Before(a, a)
  {
    LessTotal(a.name, b.name);
    LessIrreflexive(a.name);
    if Less(a.name, b.name) && Less(b.name, c.name) {
      LessTransitive(a.name, b.name, c.name);
    }
  }

  lemma {:induction false} InsertKeepsSorted(m: Masked, sorted: seq<Masked>)
    requires SortedMasked(sorted) && m !in sorted
    ensures SortedMasked(InsertMasked(m, sorted))
  {
    if sorted != [] {
      var head, tail := sorted[0], sorted[1..];
      BeforeOrder(m, head, head);
      if Before(m, head) {
        var r := [m] + sorted;
        forall i, j | 0 <= i < j < |r| ensures Before(r[i], r[j]) {
          BeforeOrder(m, head, r[j]);
        }
      } else {
        InsertKeepsSorted(m, tail);
        var rest := InsertMasked(m, tail);
        forall j | 0 <= j < |rest| ensures Before(head, rest[j]) {
          assert rest[j] in rest;
          if rest[j] != m {
            var k :| 0 <= k < |tail| && tail[k] == rest[j];
            assert Before(sorted[0], sorted[k + 1]);
          }
        }
      }
    }
  }

  predicate DistinctMasked(ms: seq<Masked>) {
    forall i, j :: 0 <= i < j < |ms| ==> ms[i] != ms[j]
  }

  lemma {:induction false} SortIsSorted(ms: seq<Masked>)
    requires DistinctMasked(ms)
    ensures SortedMasked(SortMasked(ms))
  {
    if ms != [] {
      SortIsSorted(ms[1..]);
      assert ms[0] !in ms[1..];
      InsertKeepsSorted(ms[0], SortMasked(ms[1..]));
    }
  }

  lemma ConsMasked(m: Masked, rest: seq<Masked>)
    requires m !in rest && DistinctMasked(rest)
    ensures DistinctMasked([m] + rest)
  {
    MaskedConcat([m], rest);
  }

  lemma {:induction false} HiddenMeans<V>(kind: Kind, cs: seq<Contribution<V>>, names: set<string>)
    ensures forall m :: m in Hidden(kind, cs, names) <==> m.kind == kind && m.name in Names(cs) && m.name in names
    ensures Distinct(Names(cs)) ==> DistinctMasked(Hidden(kind, cs, names))
  {
    if cs != [] {
      hide Distinct, DistinctMasked, Names;
      var rest := cs[1..];
      HiddenMeans(kind, rest, names);
      NamesStep(cs);
      ConsNames(cs[0].name, Names(rest));
      if Distinct(Names(cs)) && cs[0].name in names {
        ConsMasked(Masked(kind, cs[0].name), Hidden(kind, rest, names));
      }
    } else {
      assert DistinctMasked([]);
    }
  }

  lemma MaskedConcat(a: seq<Masked>, b: seq<Masked>)
    requires DistinctMasked(a) && DistinctMasked(b) && forall m :: m in a ==> m !in b
    ensures DistinctMasked(a + b)
  {
    var c := a + b;
    forall i, j | 0 <= i < j < |c| ensures c[i] != c[j] {
      if j >= |a| {
        assert c[j] == b[j - |a|] && c[j] in b;
        if i < |a| {
          assert c[i] == a[i] && c[i] in a;
        } else {
          assert c[i] == b[i - |a|];
        }
      }
    }
  }

  lemma HiddenOfMeans<Root, Config>(g: Layer<Root, Config>, s: Layer<Root, Config>, kind: Kind)
    ensures forall m :: m in HiddenOf(g, s, kind) <==> m.kind == kind && m.name in NamesOf(g, kind) && m.name in NamesOf(s, kind)
    ensures ValidLayer(g) ==> DistinctMasked(HiddenOf(g, s, kind))
  {
    var names := NameSet(NamesOf(s, kind));
    HiddenMeans(kind, g.skills, names);
    HiddenMeans(kind, g.remote, names);
    HiddenMeans(kind, g.inProcess, names);
    HiddenMeans(kind, g.agents, names);
    DistinctParts(Names(g.remote), Names(g.inProcess));
    if ValidLayer(g) {
      assert Distinct(NamesOf(g, kind)) && Distinct(NamesOf(g, McpService));
      MaskedConcat(Hidden(kind, g.remote, names), Hidden(kind, g.inProcess, names));
    }
  }

  /** What is masked is exactly what both layers contribute, in kind and name order. */
  lemma MaskedIsIntersection<Root, Config>(g: Layer<Root, Config>, s: Layer<Root, Config>)
    requires ValidLayer(g)
    ensures SortedMasked(Resolve(g, s).masked)
    ensures forall m :: m in Resolve(g, s).masked <==> m.name in NamesOf(g, m.kind) && m.name in NamesOf(s, m.kind)
  {
    hide HiddenOf, NamesOf, ValidLayer, KindBindings, Visible, ModelMap, NameSet;
    HiddenOfMeans(g, s, Skill);
    HiddenOfMeans(g, s, McpService);
    HiddenOfMeans(g, s, AgentService);
    var a, b, c := HiddenOf(g, s, Skill), HiddenOf(g, s, McpService), HiddenOf(g, s, AgentService);
    MaskedConcat(a, b);
    MaskedConcat(a + b, c);
    SortIsSorted(a + b + c);
  }

  // ----- An empty session -----

  lemma {:induction false} NothingHidden<V>(kind: Kind, cs: seq<Contribution<V>>)
    ensures Visible(cs, {}) == cs && Hidden(kind, cs, {}) == []
  {
    if cs != [] {
      NothingHidden(kind, cs[1..]);
      assert cs == [cs[0]] + cs[1..];
    }
  }

  /** A session that contributes nothing sees the general layer unchanged. */
  lemma EmptySessionKeepsGeneral<Root, Config>(g: Layer<Root, Config>)
    ensures Resolve(g, Layer([], [], [], [])) == Resolved(
      Bound(Skill, NamesOf(g, Skill), General) + Bound(McpService, NamesOf(g, McpService), General)
      + Bound(AgentService, NamesOf(g, AgentService), General),
      [], Values(g.skills), Values(g.remote), Names(g.inProcess), ModelMap(g.agents))
  {
    hide ModelMap, KindBindings, HiddenOf, NamesOf, Visible, NameSet, Bound;
    var s: Layer<Root, Config> := Layer([], [], [], []);
    NoNames(s);
    EmptyKind(g, s, Skill);
    EmptyKind(g, s, McpService);
    EmptyKind(g, s, AgentService);
    NothingHidden(Skill, g.skills);
    NothingHidden(McpService, g.remote);
    NothingHidden(McpService, g.inProcess);
    NothingHidden(AgentService, g.agents);
    assert g.skills + [] == g.skills && g.remote + [] == g.remote && g.inProcess + [] == g.inProcess && g.agents + [] == g.agents;
    assert SortMasked([]) == [];
  }

  lemma NoNames<Root, Config>(s: Layer<Root, Config>)
    requires s == Layer([], [], [], [])
    ensures forall kind: Kind :: NameSet(NamesOf(s, kind)) == {} && NamesOf(s, kind) == []
  {
    forall kind: Kind ensures NamesOf(s, kind) == [] && NameSet(NamesOf(s, kind)) == {} {
      assert NamesOf(s, kind) == [];
    }
  }

  lemma EmptyKind<Root, Config>(g: Layer<Root, Config>, s: Layer<Root, Config>, kind: Kind)
    requires s == Layer([], [], [], [])
    ensures KindBindings(g, s, kind) == Bound(kind, NamesOf(g, kind), General) && HiddenOf(g, s, kind) == []
  {
    hide Visible, Hidden;
    NoNames(s);
    NothingHidden(kind, g.skills);
    NothingHidden(kind, g.remote);
    NothingHidden(kind, g.inProcess);
    NothingHidden(kind, g.agents);
  }
}
