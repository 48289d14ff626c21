/**
 * The system-wide views computed from the connections of `analyze_system`:
 * connections followed through one level of hierarchy, and the ports an
 * instance leaves unbound.
 */
module RtlConnectivity {

  import opened Base
  import opened Text
  import opened RtlExtract
  import opened RtlSystem

  // ---------------------------------------------------------------------
  // Grouping by parent module
  // ---------------------------------------------------------------------

  function ParentNames(cs: seq<Connection>): (ps: seq<string>)
    ensures |ps| == |cs|
    ensures forall k :: 0 <= k < |cs| ==> ps[k] == cs[k].parentModule
  {
    seq(|cs|, k requires 0 <= k < |cs| => cs[k].parentModule)
  }

  /** The keys of `by_parent`: each parent module once, at its first connection. */
  function Parents(cs: seq<Connection>): (ps: seq<string>)
    ensures NoDup(ps)
    ensures forall p :: p in ps <==> exists c :: c in cs && c.parentModule == p
  {
    var names := ParentNames(cs);
    assert forall p :: p in names <==> exists c :: c in cs && c.parentModule == p by {
      forall p ensures p in names <==> exists c :: c in cs && c.parentModule == p {
        if exists c :: c in cs && c.parentModule == p {
          var c :| c in cs && c.parentModule == p;
          var k :| 0 <= k < |cs| && cs[k] == c;
          assert names[k] == p;
        }
      }
    }
    Dedup(names)
  }

  /** `by_parent[p]`: the connections made inside module `p`, in order. */
  function Group(cs: seq<Connection>, p: string): seq<Connection>
    decreases |cs|
  {
    if |cs| == 0 then []
    else
      var n := |cs| - 1;
      Group(cs[..n], p) + (if cs[n].parentModule == p then [cs[n]] else [])
  }

  /** The group of `p` holds exactly the connections made inside `p`. */
  lemma {:induction false} GroupMembers(cs: seq<Connection>, p: string, c: Connection)
    ensures c in Group(cs, p) <==> c in cs && c.parentModule == p
    decreases |cs|
  {
    if |cs| > 0 {
      var n := |cs| - 1;
      GroupMembers(cs[..n], p, c);
      InFrontOrLast(cs, c);
    }
  }

  // ---------------------------------------------------------------------
  // flatten_connections
  // ---------------------------------------------------------------------

  /** One connection followed through the instance it binds. */
  datatype Flattened = Flattened(fromModule: string, fromSignalExpr: string, toModule: string,
                                 toSignal: string, viaInstance: string, viaModule: string,
                                 innerExpr: string)

  /**
   * Connection `b`, made inside the child module of connection `a`, uses the
   * child port that `a` binds as one of the identifiers of its expression.
   */
  predicate Reaches(a: Connection, b: Connection) {
    b.parentModule == a.childModule && a.childPort in TokenizeSignalExpr(b.parentSignal)
  }

  /** The record for `a` followed into `b`. */
  function Through(a: Connection, b: Connection): (f: Flattened)
    ensures f.fromModule == a.parentModule && f.fromSignalExpr == a.parentSignal
    ensures f.toModule == b.childModule && f.toSignal == b.childPort
    ensures f.viaInstance == a.instance && f.viaModule == a.childModule && f.innerExpr == b.parentSignal
  {
    Flattened(a.parentModule, a.parentSignal, b.childModule, b.childPort, a.instance, a.childModule,
              b.parentSignal)
  }

  /** The innermost loop: `a` followed into each inner connection whose expression uses its port. */
  function FlattenInner(a: Connection, inners: seq<Connection>): seq<Flattened>
    decreases |inners|
  {
    if |inners| == 0 then []
    else
      var n := |inners| - 1;
      FlattenInner(a, inners[..n]) +
        (if a.childPort in TokenizeSignalExpr(inners[n].parentSignal) then [Through(a, inners[n])] else [])
  }

  /** One connection followed into its child module, when that module makes connections. */
  function FlattenConn(cs: seq<Connection>, a: Connection): seq<Flattened> {
    if a.childModule in Parents(cs) then FlattenInner(a, Group(cs, a.childModule)) else []
  }

  /** `f` applied to each connection of `xs`, the results one after the other. */
  function FlatMap<B>(f: Connection -> seq<B>, xs: seq<Connection>): seq<B>
    decreases |xs|
  {
    if |xs| == 0 then [] else FlatMap(f, xs[..|xs| - 1]) + f(xs[|xs| - 1])
  }

  /** `f` applied group by group: the connections of `xs` made in each parent of `ps`, in turn. */
  function Grouped<B>(f: Connection -> seq<B>, xs: seq<Connection>, ps: seq<string>): seq<B>
    decreases |ps|
  {
    if |ps| == 0 then []
    else Grouped(f, xs, ps[..|ps| - 1]) + FlatMap(f, Group(xs, ps[|ps| - 1]))
  }

  /** The body of the loop over a group's connections. */
  function FlattenStep(cs: seq<Connection>): Connection -> seq<Flattened> {
    a => FlattenConn(cs, a)
  }

  /** `flatten_connections`, group by group in the order parents first appear. */
  function FlattenSpec(cs: seq<Connection>): seq<Flattened> {
    Grouped(FlattenStep(cs), cs, Parents(cs))
  }

  /**
   * The reference: every connection `a` against every connection `b`, in
   * connection order, one record when `a` reaches `b`.
   */
  function Partners(a: Connection, bs: seq<Connection>): seq<Flattened>
    decreases |bs|
  {
    if |bs| == 0 then []
    else
      var n := |bs| - 1;
      Partners(a, bs[..n]) + (if Reaches(a, bs[n]) then [Through(a, bs[n])] else [])
  }

  function PairsFrom(cs: seq<Connection>, xs: seq<Connection>): seq<Flattened>
    decreases |xs|
  {
    if |xs| == 0 then [] else PairsFrom(cs, xs[..|xs| - 1]) + Partners(xs[|xs| - 1], cs)
  }

  function PairSpec(cs: seq<Connection>): seq<Flattened> {
    PairsFrom(cs, cs)
  }

  lemma {:induction false} FlattenInnerAppend(a: Connection, xs: seq<Connection>, ys: seq<Connection>)
    ensures FlattenInner(a, xs + ys) == FlattenInner(a, xs) + FlattenInner(a, ys)
    decreases |ys|
  {
    if |ys| > 0 {
      var n := |ys| - 1;
      assert (xs + ys)[..|xs + ys| - 1] == xs + ys[..n];
      FlattenInnerAppend(a, xs, ys[..n]);
    } else {
      assert xs + ys == xs;
    }
  }

  /** Following `a` through its child module's group finds exactly the connections it reaches. */
  lemma {:induction false} InnerIsPartners(a: Connection, cs: seq<Connection>)
    ensures FlattenInner(a, Group(cs, a.childModule)) == Partners(a, cs)
    decreases |cs|
  {
    if |cs| > 0 {
      var n := |cs| - 1;
      InnerIsPartners(a, cs[..n]);
      var tail := if cs[n].parentModule == a.childModule then [cs[n]] else [];
      FlattenInnerAppend(a, Group(cs[..n], a.childModule), tail);
      if cs[n].parentModule == a.childModule {
        assert FlattenInner(a, tail) == FlattenInner(a, []) +
          (if a.childPort in TokenizeSignalExpr(cs[n].parentSignal) then [Through(a, cs[n])] else []) by {
          assert tail[..0] == [];
        }
      }
    }
  }

  /** A connection into a module that makes no connections reaches nothing. */
  lemma {:induction false} NoPartners(a: Connection, cs: seq<Connection>)
    requires forall c :: c in cs ==> c.parentModule != a.childModule
    ensures Partners(a, cs) == []
    decreases |cs|
  {
    if |cs| > 0 {
      var n := |cs| - 1;
      assert cs[n] in cs;
      forall c | c in cs[..n] ensures c.parentModule != a.childModule {
        assert c in cs;
      }
      NoPartners(a, cs[..n]);
    }
  }

  /** The `child_mod in by_parent` test drops nothing. */
  lemma FlattenConnIsPartners(cs: seq<Connection>, a: Connection)
    ensures FlattenConn(cs, a) == Partners(a, cs)
  {
    if a.childModule in Parents(cs) {
      InnerIsPartners(a, cs);
    } else {
      NoPartners(a, cs);
    }
  }

  lemma {:induction false} FlattenAllIsPairs(cs: seq<Connection>, xs: seq<Connection>)
    ensures FlatMap(FlattenStep(cs), xs) == PairsFrom(cs, xs)
    decreases |xs|
  {
    if |xs| > 0 {
      FlattenAllIsPairs(cs, xs[..|xs| - 1]);
      FlattenConnIsPartners(cs, xs[|xs| - 1]);
    }
  }

  lemma {:induction false} FlatMapAppend<B>(f: Connection -> seq<B>, xs: seq<Connection>, ys: seq<Connection>)
    ensures FlatMap(f, xs + ys) == FlatMap(f, xs) + FlatMap(f, ys)
    decreases |ys|
  {
    if |ys| > 0 {
      var n := |ys| - 1;
      assert (xs + ys)[..|xs + ys| - 1] == xs + ys[..n];
      FlatMapAppend(f, xs, ys[..n]);
    } else {
      assert xs + ys == xs;
    }
  }

  /** The last group after adding connection `x`. */
  lemma GroupSnoc<B>(f: Connection -> seq<B>, xs: seq<Connection>, x: Connection, q: string)
    ensures FlatMap(f, Group(xs + [x], q)) ==
      FlatMap(f, Group(xs, q)) + (if x.parentModule == q then f(x) else [])
  {
    var tail := if x.parentModule == q then [x] else [];
    assert Group(xs + [x], q) == Group(xs, q) + tail by {
      assert (xs + [x])[..|xs + [x]| - 1] == xs;
    }
    FlatMapAppend(f, Group(xs, q), tail);
    if x.parentModule == q {
      assert tail[..0] == [];
    }
  }

  /** The step of `GroupedSnoc` when `x` belongs to the last group. */
  lemma GroupedSnocLast<B>(f: Connection -> seq<B>, xs: seq<Connection>, x: Connection, ps: seq<string>)
    requires |ps| > 0 && x.parentModule == ps[|ps| - 1]
    requires multiset(Grouped(f, xs + [x], ps[..|ps| - 1])) == multiset(Grouped(f, xs, ps[..|ps| - 1]))
    ensures multiset(Grouped(f, xs + [x], ps)) == multiset(Grouped(f, xs, ps)) + multiset(f(x))
  {
    var n := |ps| - 1;
    GroupSnoc(f, xs, x, ps[n]);
    var group := FlatMap(f, Group(xs, ps[n]));
    assert Grouped(f, xs + [x], ps) == Grouped(f, xs + [x], ps[..n]) + (group + f(x));
    assert Grouped(f, xs, ps) == Grouped(f, xs, ps[..n]) + group;
  }

  /** The step of `GroupedSnoc` when `x` belongs to another group. */
  lemma GroupedSnocOther<B>(f: Connection -> seq<B>, xs: seq<Connection>, x: Connection, ps: seq<string>,
                            extra: multiset<B>)
    requires |ps| > 0 && x.parentModule != ps[|ps| - 1]
    requires multiset(Grouped(f, xs + [x], ps[..|ps| - 1])) == multiset(Grouped(f, xs, ps[..|ps| - 1])) + extra
    ensures multiset(Grouped(f, xs + [x], ps)) == multiset(Grouped(f, xs, ps)) + extra
  {
    var n := |ps| - 1;
    GroupSnoc(f, xs, x, ps[n]);
    var group := FlatMap(f, Group(xs, ps[n]));
    assert Grouped(f, xs + [x], ps) == Grouped(f, xs + [x], ps[..n]) + (group + []);
    assert Grouped(f, xs, ps) == Grouped(f, xs, ps[..n]) + group;
  }

  /** Adding connection `x` to the grouped connections adds its results once, in its own group. */
  lemma {:induction false} GroupedSnoc<B>(f: Connection -> seq<B>, xs: seq<Connection>, x: Connection, ps: seq<string>)
    requires NoDup(ps)
    ensures multiset(Grouped(f, xs + [x], ps)) ==
      multiset(Grouped(f, xs, ps)) + (if x.parentModule in ps then multiset(f(x)) else multiset{})
    decreases |ps|
  {
    if |ps| > 0 {
      var n := |ps| - 1;
      var front := ps[..n];
      assert NoDup(front);
      GroupedSnoc(f, xs, x, front);
      InFrontOrLast(ps, x.parentModule);
      if x.parentModule == ps[n] {
        assert x.parentModule !in front;
        GroupedSnocLast(f, xs, x, ps);
      } else {
        GroupedSnocOther(f, xs, x, ps, if x.parentModule in front then multiset(f(x)) else multiset{});
      }
    }
  }

  lemma {:induction false} GroupedEmpty<B>(f: Connection -> seq<B>, ps: seq<string>)
    ensures Grouped(f, [], ps) == []
    decreases |ps|
  {
    if |ps| > 0 {
      GroupedEmpty(f, ps[..|ps| - 1]);
    }
  }

  /** Grouping by parent only reorders the results: each connection's group is visited once. */
  lemma {:induction false} GroupedPermutes<B>(f: Connection -> seq<B>, xs: seq<Connection>, ps: seq<string>)
    requires NoDup(ps)
    requires forall c :: c in xs ==> c.parentModule in ps
    ensures multiset(Grouped(f, xs, ps)) == multiset(FlatMap(f, xs))
    decreases |xs|
  {
    if |xs| == 0 {
      GroupedEmpty(f, ps);
    } else {
      var n := |xs| - 1;
      forall c | c in xs[..n] ensures c.parentModule in ps {
        assert c in xs;
      }
      GroupedPermutes(f, xs[..n], ps);
      SnocLast(xs);
      InFrontOrLast(xs, xs[n]);
      GroupedSnoc(f, xs[..n], xs[n], ps);
    }
  }

  /**
   * `flatten_connections` yields, up to order, exactly one record per pair
   * of connections `a`, `b` where `a` reaches `b`.
   */
  lemma FlattenMatchesPairs(cs: seq<Connection>)
    ensures multiset(FlattenSpec(cs)) == multiset(PairSpec(cs))
  {
    forall c | c in cs ensures c.parentModule in Parents(cs) {
    }
    GroupedPermutes(FlattenStep(cs), cs, Parents(cs));
    FlattenAllIsPairs(cs, cs);
  }

  lemma {:induction false} PartnersMembers(a: Connection, bs: seq<Connection>, f: Flattened)
    ensures f in Partners(a, bs) <==> exists b :: b in bs && Reaches(a, b) && f == Through(a, b)
    decreases |bs|
  {
    if |bs| > 0 {
      var n := |bs| - 1;
      PartnersMembers(a, bs[..n], f);
      assert bs == bs[..n] + [bs[n]];
      if exists b :: b in bs && Reaches(a, b) && f == Through(a, b) {
        var b :| b in bs && Reaches(a, b) && f == Through(a, b);
        if b != bs[n] {
          assert b in bs[..n];
        }
      }
    }
  }

  lemma {:induction false} PairsFromMembers(cs: seq<Connection>, xs: seq<Connection>, f: Flattened)
    ensures f in PairsFrom(cs, xs) <==>
      exists a, b :: a in xs && b in cs && Reaches(a, b) && f == Through(a, b)
    decreases |xs|
  {
    if |xs| > 0 {
      var n := |xs| - 1;
      PairsFromMembers(cs, xs[..n], f);
      PartnersMembers(xs[n], cs, f);
      assert xs == xs[..n] + [xs[n]];
      if exists a, b :: a in xs && b in cs && Reaches(a, b) && f == Through(a, b) {
        var a, b :| a in xs && b in cs && Reaches(a, b) && f == Through(a, b);
        if a != xs[n] {
          assert a in xs[..n];
        }
      }
    }
  }

  /** A record is produced exactly for a connection `a` reaching a connection `b`. */
  lemma FlattenMembers(cs: seq<Connection>, f: Flattened)
    ensures f in FlattenSpec(cs) <==>
      exists a, b :: a in cs && b in cs && Reaches(a, b) && f == Through(a, b)
  {
    FlattenMatchesPairs(cs);
    assert f in FlattenSpec(cs) <==> f in multiset(FlattenSpec(cs));
    assert f in PairSpec(cs) <==> f in multiset(PairSpec(cs));
    PairsFromMembers(cs, cs, f);
  }

  // ---------------------------------------------------------------------
  // flatten_connections, step by step
  // ---------------------------------------------------------------------

  lemma ParentsSnoc(cs: seq<Connection>, k: nat)
    requires k < |cs|
    ensures Parents(cs[..k + 1]) ==
      if cs[k].parentModule in Parents(cs[..k]) then Parents(cs[..k]) else Parents(cs[..k]) + [cs[k].parentModule]
  {
    assert ParentNames(cs[..k + 1])[..k] == ParentNames(cs[..k]);
  }

  lemma GroupPrefixSnoc(cs: seq<Connection>, k: nat, p: string)
    requires k < |cs|
    ensures Group(cs[..k + 1], p) == Group(cs[..k], p) + (if cs[k].parentModule == p then [cs[k]] else [])
  {
    TakeTake(cs, k);
  }

  lemma GroupedPrefixSnoc<B>(f: Connection -> seq<B>, xs: seq<Connection>, ps: seq<string>, i: nat)
    requires i < |ps|
    ensures Grouped(f, xs, ps[..i + 1]) == Grouped(f, xs, ps[..i]) + FlatMap(f, Group(xs, ps[i]))
  {
    TakeTake(ps, i);
  }

  /** `by_parent` as built from the connections `cs`: its keys in order, and each key's list. */
  ghost predicate GroupsOf(cs: seq<Connection>, parents: seq<string>, groups: map<string, seq<Connection>>) {
    parents == Parents(cs) &&
    (forall p :: p in groups <==> p in parents) &&
    (forall p :: p in groups ==> groups[p] == Group(cs, p))
  }

  lemma GroupEmpty(cs: seq<Connection>, p: string)
    requires p !in Parents(cs)
    ensures Group(cs, p) == []
  {
    if Group(cs, p) != [] {
      GroupMembers(cs, p, Group(cs, p)[0]);
    }
  }

  /** `setdefault` for a parent seen for the first time. */
  lemma GroupsAddNew(cs: seq<Connection>, k: nat, parents: seq<string>, groups: map<string, seq<Connection>>)
    requires k < |cs| && GroupsOf(cs[..k], parents, groups) && cs[k].parentModule !in groups
    ensures GroupsOf(cs[..k + 1], parents + [cs[k].parentModule], groups[cs[k].parentModule := [cs[k]]])
  {
    var p := cs[k].parentModule;
    var groups' := groups[p := [cs[k]]];
    assert parents + [p] == Parents(cs[..k + 1]) by {
      ParentsSnoc(cs, k);
    }
    assert forall q :: q in groups' <==> q in parents + [p];
    assert forall q :: q in groups' ==> groups'[q] == Group(cs[..k + 1], q) by {
      forall q | q in groups' ensures groups'[q] == Group(cs[..k + 1], q) {
        GroupPrefixSnoc(cs, k, q);
        if q == p {
          GroupEmpty(cs[..k], p);
        }
      }
    }
  }

  /** `setdefault` for a parent already seen. */
  lemma GroupsAddOld(cs: seq<Connection>, k: nat, parents: seq<string>, groups: map<string, seq<Connection>>)
    requires k < |cs| && GroupsOf(cs[..k], parents, groups) && cs[k].parentModule in groups
    ensures GroupsOf(cs[..k + 1], parents, groups[cs[k].parentModule := groups[cs[k].parentModule] + [cs[k]]])
  {
    var p := cs[k].parentModule;
    var groups' := groups[p := groups[p] + [cs[k]]];
    assert parents == Parents(cs[..k + 1]) by {
      ParentsSnoc(cs, k);
    }
    assert forall q :: q in groups' <==> q in parents;
    assert forall q :: q in groups' ==> groups'[q] == Group(cs[..k + 1], q) by {
      forall q | q in groups' ensures groups'[q] == Group(cs[..k + 1], q) {
        GroupPrefixSnoc(cs, k, q);
        assert groups[q] == Group(cs[..k], q);
      }
    }
    GroupsOfIntro(cs[..k + 1], parents, groups');
  }

  lemma GroupsOfIntro(cs: seq<Connection>, parents: seq<string>, groups: map<string, seq<Connection>>)
    requires parents == Parents(cs)
    requires forall p :: p in groups <==> p in parents
    requires forall p :: p in groups ==> groups[p] == Group(cs, p)
    ensures GroupsOf(cs, parents, groups)
  {
  }

  /** The first loop of `flatten_connections`: `by_parent.setdefault(parent, []).append(conn)`. */
  method GroupByParent(cs: seq<Connection>) returns (parents: seq<string>, groups: map<string, seq<Connection>>)
    ensures GroupsOf(cs, parents, groups)
  {
    parents := [];
    groups := map[];
    for k := 0 to |cs|
      invariant GroupsOf(cs[..k], parents, groups)
    {
      var conn := cs[k];
      var p := conn.parentModule;
      if p !in groups {
        GroupsAddNew(cs, k, parents, groups);
        groups := groups[p := [conn]];
        parents := parents + [p];
      } else {
        GroupsAddOld(cs, k, parents, groups);
        groups := groups[p := groups[p] + [conn]];
      }
    }
    TakeAll(cs);
  }

  /** The innermost loop of `flatten_connections`, for connection `conn` of group `parent`. */
  method FlattenInnerLoop(conn: Connection, parent: string, inners: seq<Connection>) returns (out: seq<Flattened>)
    requires conn.parentModule == parent
    ensures out == FlattenInner(conn, inners)
  {
    out := [];
    for k := 0 to |inners|
      invariant out == FlattenInner(conn, inners[..k])
    {
      var inner := inners[k];
      var innerTokens := Elems(TokenizeSignalExpr(inner.parentSignal));
      TakeTake(inners, k);
      if conn.childPort in innerTokens {
        out := out + [Flattened(parent, conn.parentSignal, inner.childModule, inner.childPort,
                                conn.instance, conn.childModule, inner.parentSignal)];
      }
    }
    TakeAll(inners);
  }

  /** The loop over the connections of one group of `flatten_connections`. */
  method FlattenGroup(cs: seq<Connection>, parents: seq<string>, groups: map<string, seq<Connection>>,
                      parent: string, conns: seq<Connection>) returns (out: seq<Flattened>)
    requires GroupsOf(cs, parents, groups)
    requires forall c :: c in conns ==> c.parentModule == parent
    ensures out == FlatMap(FlattenStep(cs), conns)
  {
    out := [];
    for j := 0 to |conns|
      invariant out == FlatMap(FlattenStep(cs), conns[..j])
    {
      assert conns[j] in conns;
      var inner := FlattenOne(cs, parents, groups, parent, conns[j]);
      FlatMapTake(FlattenStep(cs), conns, j);
      out := out + inner;
    }
    TakeAll(conns);
  }

  /** One pass of the loop over a group: the connection followed into its child module's group. */
  method FlattenOne(cs: seq<Connection>, parents: seq<string>, groups: map<string, seq<Connection>>,
                    parent: string, conn: Connection) returns (inner: seq<Flattened>)
    requires GroupsOf(cs, parents, groups) && conn.parentModule == parent
    ensures inner == FlattenStep(cs)(conn)
  {
    var childMod := conn.childModule;
    if childMod in groups {
      inner := FlattenInnerLoop(conn, parent, groups[childMod]);
    } else {
      inner := [];
    }
  }

  lemma FlatMapTake<B>(f: Connection -> seq<B>, xs: seq<Connection>, j: nat)
    requires j < |xs|
    ensures FlatMap(f, xs[..j + 1]) == FlatMap(f, xs[..j]) + f(xs[j])
  {
    TakeTake(xs, j);
  }

  /** `flatten_connections`: each connection followed one level down into its child module. */
  method FlattenConnections(system: System) returns (flattened: seq<Flattened>)
    ensures flattened == FlattenSpec(system.connections)
  {
    var cs := system.connections;
    var parents, groups := GroupByParent(cs);
    flattened := [];
    for i := 0 to |parents|
      invariant flattened == Grouped(FlattenStep(cs), cs, parents[..i])
    {
      var parent := parents[i];
      forall c: Connection | c in groups[parent] ensures c.parentModule == parent {
        GroupMembers(cs, parent, c);
      }
      var more := FlattenGroup(cs, parents, groups, parent, groups[parent]);
      GroupedPrefixSnoc(FlattenStep(cs), cs, parents, i);
      flattened := flattened + more;
    }
    TakeAll(parents);
  }

  // ---------------------------------------------------------------------
  // detect_missing_connections
  // ---------------------------------------------------------------------

  /** What `instances` holds for one instance name: its submodule and the ports bound through it. */
  datatype InstanceUse = InstanceUse(submodule: string, ports: set<string>)

  /** One instance that leaves ports of its submodule unbound. */
  datatype Issue = Issue(instance: string, submodule: string, missingPorts: seq<string>)

  /**
   * `instances` after the connections `cs`: keyed by instance name alone,
   * the submodule of the first connection through it (`setdefault`) and the
   * ports of all of them.
   */
  function Uses(cs: seq<Connection>): map<string, InstanceUse>
    decreases |cs|
  {
    if |cs| == 0 then map[]
    else
      AddUse(Uses(cs[..|cs| - 1]), cs[|cs| - 1])
  }

  /** One connection recorded: a new instance name takes the connection's submodule, and the port is added. */
  function AddUse(u: map<string, InstanceUse>, c: Connection): map<string, InstanceUse> {
    if c.instance in u then u[c.instance := InstanceUse(u[c.instance].submodule, u[c.instance].ports + {c.childPort})]
    else u[c.instance := InstanceUse(c.childModule, {c.childPort})]
  }

  function InstanceNames(cs: seq<Connection>): (names: seq<string>)
    ensures |names| == |cs|
    ensures forall k :: 0 <= k < |cs| ==> names[k] == cs[k].instance
  {
    seq(|cs|, k requires 0 <= k < |cs| => cs[k].instance)
  }

  /** The keys of `instances`, in insertion order. */
  function InstanceOrder(cs: seq<Connection>): seq<string> {
    Dedup(InstanceNames(cs))
  }

  /** The ports bound through instance name `inst`, by any connection. */
  function BoundPorts(cs: seq<Connection>, inst: string): set<string> {
    set c | c in cs && c.instance == inst :: c.childPort
  }

  /** `module_ports.get(submodule, [])` */
  function ExpectedPorts(modules: map<string, ModuleInfo>, submodule: string): seq<string> {
    if submodule in modules then modules[submodule].ports else []
  }

  /** The expected ports left out of `bound`, in order. */
  function Unbound(expected: seq<string>, bound: set<string>): (r: seq<string>)
    ensures forall p :: p in r <==> p in expected && p !in bound
    decreases |expected|
  {
    if |expected| == 0 then []
    else
      var n := |expected| - 1;
      assert forall p :: p in expected <==> p in expected[..n] || p == expected[n] by {
        assert expected == expected[..n] + [expected[n]];
      }
      Unbound(expected[..n], bound) + (if expected[n] in bound then [] else [expected[n]])
  }

  /** `sorted(expected - connected)` */
  function MissingPorts(expected: seq<string>, bound: set<string>): (r: seq<string>)
    ensures StrictlySorted(r)
    ensures forall p :: p in r <==> p in expected && p !in bound
  {
    SortedUnique(Unbound(expected, bound))
  }

  /** The issue, if any, of one entry of `instances`. */
  function IssueOf(modules: map<string, ModuleInfo>, inst: string, use: InstanceUse): seq<Issue> {
    var missing := MissingPorts(ExpectedPorts(modules, use.submodule), use.ports);
    if |missing| > 0 then [Issue(inst, use.submodule, missing)] else []
  }

  /** The issues of the instance names `order`, in order. */
  function IssuesOf(modules: map<string, ModuleInfo>, order: seq<string>, uses: map<string, InstanceUse>): seq<Issue>
    requires forall inst :: inst in order ==> inst in uses
    decreases |order|
  {
    if |order| == 0 then []
    else
      var n := |order| - 1;
      assert order[n] in order;
      IssuesOf(modules, order[..n], uses) + IssueOf(modules, order[n], uses[order[n]])
  }

  lemma InstanceOrderSnoc(cs: seq<Connection>, k: nat)
    requires k < |cs|
    ensures InstanceOrder(cs[..k + 1]) ==
      if cs[k].instance in InstanceOrder(cs[..k]) then InstanceOrder(cs[..k])
      else InstanceOrder(cs[..k]) + [cs[k].instance]
  {
    assert InstanceNames(cs[..k + 1])[..k] == InstanceNames(cs[..k]);
  }

  /** An instance name has an entry exactly when some connection goes through it. */
  lemma {:induction false} UsesDomain(cs: seq<Connection>, inst: string)
    ensures inst in Uses(cs) <==> inst in InstanceOrder(cs)
    ensures inst in Uses(cs) <==> exists c :: c in cs && c.instance == inst
    decreases |cs|
  {
    if |cs| > 0 {
      var n := |cs| - 1;
      UsesDomain(cs[..n], inst);
      InstanceOrderSnoc(cs, n);
      assert cs[..n + 1] == cs;
      if exists c :: c in cs && c.instance == inst {
        var c :| c in cs && c.instance == inst;
        InFrontOrLast(cs, c);
      }
      if exists c :: c in cs[..n] && c.instance == inst {
        var c :| c in cs[..n] && c.instance == inst;
        InFrontOrLast(cs, c);
      }
    }
  }

  lemma BoundPortsSnoc(cs: seq<Connection>, inst: string)
    requires |cs| > 0
    ensures BoundPorts(cs, inst) ==
      BoundPorts(cs[..|cs| - 1], inst) + (if cs[|cs| - 1].instance == inst then {cs[|cs| - 1].childPort} else {})
  {
    var n := |cs| - 1;
    forall p ensures p in BoundPorts(cs, inst) <==>
      p in BoundPorts(cs[..n], inst) + (if cs[n].instance == inst then {cs[n].childPort} else {})
    {
      if p in BoundPorts(cs, inst) {
        var c :| c in cs && c.instance == inst && c.childPort == p;
        InFrontOrLast(cs, c);
      }
      if p in BoundPorts(cs[..n], inst) {
        var c :| c in cs[..n] && c.instance == inst && c.childPort == p;
        InFrontOrLast(cs, c);
      }
      assert cs[n] in cs;
    }
  }

  /** The ports recorded for an instance name are those bound through it by any connection. */
  lemma {:induction false} UsesPorts(cs: seq<Connection>, inst: string)
    requires inst in Uses(cs)
    ensures Uses(cs)[inst].ports == BoundPorts(cs, inst)
    decreases |cs|
  {
    var n := |cs| - 1;
    BoundPortsSnoc(cs, inst);
    if inst in Uses(cs[..n]) {
      UsesPorts(cs[..n], inst);
    } else {
      UsesDomain(cs[..n], inst);
      assert BoundPorts(cs[..n], inst) == {};
    }
  }

  /** The submodule recorded for an instance name is that of the first connection through it. */
  lemma {:induction false} UsesFirst(cs: seq<Connection>, k: nat)
    requires k < |cs|
    requires forall j :: 0 <= j < k ==> cs[j].instance != cs[k].instance
    ensures cs[k].instance in Uses(cs)
    ensures Uses(cs)[cs[k].instance].submodule == cs[k].childModule
    decreases |cs|
  {
    var n := |cs| - 1;
    var inst := cs[k].instance;
    if k < n {
      assert cs[..n][k] == cs[k];
      UsesFirst(cs[..n], k);
    } else {
      UsesDomain(cs[..n], inst);
    }
  }

  lemma UsesAll(cs: seq<Connection>)
    ensures forall inst :: inst in InstanceOrder(cs) ==> inst in Uses(cs)
  {
    forall inst | inst in InstanceOrder(cs) ensures inst in Uses(cs) {
      UsesDomain(cs, inst);
    }
  }

  /** `detect_missing_connections`: the issues of the instances, in the order they first appear. */
  function MissingSpec(system: System): seq<Issue> {
    var cs := system.connections;
    UsesAll(cs);
    IssuesOf(system.modules, InstanceOrder(cs), Uses(cs))
  }

  /** An issue is listed exactly for a listed instance name whose entry has unbound ports. */
  lemma {:induction false} IssuesOfMembers(modules: map<string, ModuleInfo>, order: seq<string>,
                                          uses: map<string, InstanceUse>, issue: Issue)
    requires forall inst :: inst in order ==> inst in uses
    ensures issue in IssuesOf(modules, order, uses) <==>
      issue.instance in order && issue in IssueOf(modules, issue.instance, uses[issue.instance])
    decreases |order|
  {
    if |order| > 0 {
      var n := |order| - 1;
      IssuesOfMembers(modules, order[..n], uses, issue);
      InFrontOrLast(order, issue.instance);
    }
  }

  lemma IssueOfInstance(modules: map<string, ModuleInfo>, inst: string, use: InstanceUse)
    ensures |IssueOf(modules, inst, use)| <= 1
    ensures forall x :: x in IssueOf(modules, inst, use) ==> x.instance == inst
  {
  }

  lemma DistinctSnoc(front: seq<Issue>, last: seq<Issue>, inst: string)
    requires forall i, j :: 0 <= i < j < |front| ==> front[i].instance != front[j].instance
    requires forall x :: x in front ==> x.instance != inst
    requires |last| <= 1 && forall x :: x in last ==> x.instance == inst
    ensures forall i, j :: 0 <= i < j < |front + last| ==> (front + last)[i].instance != (front + last)[j].instance
  {
    forall i, j | 0 <= i < j < |front + last| ensures (front + last)[i].instance != (front + last)[j].instance {
      if j >= |front| {
        assert (front + last)[j] in last;
        assert (front + last)[i] in front;
      }
    }
  }

  /** The issues name distinct instances. */
  lemma {:induction false} IssuesOfDistinct(modules: map<string, ModuleInfo>, order: seq<string>,
                                           uses: map<string, InstanceUse>)
    requires forall inst :: inst in order ==> inst in uses
    requires NoDup(order)
    ensures forall i, j :: 0 <= i < j < |IssuesOf(modules, order, uses)| ==>
      IssuesOf(modules, order, uses)[i].instance != IssuesOf(modules, order, uses)[j].instance
    decreases |order|
  {
    if |order| > 0 {
      var n := |order| - 1;
      var front := IssuesOf(modules, order[..n], uses);
      assert NoDup(order[..n]);
      IssuesOfDistinct(modules, order[..n], uses);
      forall x | x in front ensures x.instance != order[n] {
        IssuesOfMembers(modules, order[..n], uses, x);
      }
      IssueOfInstance(modules, order[n], uses[order[n]]);
      DistinctSnoc(front, IssueOf(modules, order[n], uses[order[n]]), order[n]);
    }
  }

  /**
   * What an issue says: the instance has connections, its submodule is that
   * of the instance's first connection, and its missing ports are, sorted
   * and without repeats, exactly the submodule's ports that no connection
   * through the instance name binds; there is at least one.
   */
  lemma MissingIssue(system: System, issue: Issue)
    requires issue in MissingSpec(system)
    ensures exists c :: c in system.connections && c.instance == issue.instance
    ensures issue.instance in Uses(system.connections)
    ensures issue.submodule == Uses(system.connections)[issue.instance].submodule
    ensures StrictlySorted(issue.missingPorts) && |issue.missingPorts| > 0
    ensures forall p :: p in issue.missingPorts <==>
      p in ExpectedPorts(system.modules, issue.submodule) && p !in BoundPorts(system.connections, issue.instance)
  {
    var cs := system.connections;
    UsesAll(cs);
    IssuesOfMembers(system.modules, InstanceOrder(cs), Uses(cs), issue);
    UsesDomain(cs, issue.instance);
    UsesPorts(cs, issue.instance);
  }

  /**
   * An instance name that some connection uses has an issue exactly when a
   * port of its submodule is bound by none of its connections.
   */
  lemma MissingWhenUnbound(system: System, inst: string)
    requires exists c :: c in system.connections && c.instance == inst
    ensures inst in Uses(system.connections)
    ensures (exists issue :: issue in MissingSpec(system) && issue.instance == inst) <==>
      exists p :: p in ExpectedPorts(system.modules, Uses(system.connections)[inst].submodule) &&
        p !in BoundPorts(system.connections, inst)
  {
    var cs := system.connections;
    var order := InstanceOrder(cs);
    UsesAll(cs);
    UsesDomain(cs, inst);
    UsesPorts(cs, inst);
    var use := Uses(cs)[inst];
    var missing := MissingPorts(ExpectedPorts(system.modules, use.submodule), use.ports);
    if exists p :: p in ExpectedPorts(system.modules, use.submodule) && p !in BoundPorts(cs, inst) {
      var p :| p in ExpectedPorts(system.modules, use.submodule) && p !in BoundPorts(cs, inst);
      assert p in missing;
      var issue := Issue(inst, use.submodule, missing);
      IssuesOfMembers(system.modules, order, Uses(cs), issue);
    }
    if exists issue :: issue in MissingSpec(system) && issue.instance == inst {
      var issue :| issue in MissingSpec(system) && issue.instance == inst;
      IssuesOfMembers(system.modules, order, Uses(cs), issue);
      assert missing[0] in missing;
    }
  }

  /** An instance of a module with no record reports nothing. */
  lemma UnknownSubmoduleSilent(system: System, issue: Issue)
    requires issue in MissingSpec(system)
    ensures issue.submodule in system.modules
  {
    MissingIssue(system, issue);
    assert issue.missingPorts[0] in issue.missingPorts;
  }

  /** Each instance name is reported at most once. */
  lemma MissingDistinct(system: System)
    ensures forall i, j :: 0 <= i < j < |MissingSpec(system)| ==>
      MissingSpec(system)[i].instance != MissingSpec(system)[j].instance
  {
    UsesAll(system.connections);
    IssuesOfDistinct(system.modules, InstanceOrder(system.connections), Uses(system.connections));
  }

  /** The `instances` dictionary as built from the connections `cs`: its keys in order, and its entries. */
  ghost predicate InstancesOf(cs: seq<Connection>, order: seq<string>, instances: map<string, InstanceUse>) {
    order == InstanceOrder(cs) && instances == Uses(cs)
  }

  lemma UsesPrefixSnoc(cs: seq<Connection>, k: nat)
    requires k < |cs|
    ensures Uses(cs[..k + 1]) == AddUse(Uses(cs[..k]), cs[k])
  {
    TakeTake(cs, k);
  }

  /** The first loop of `detect_missing_connections`: `setdefault`, then add the port. */
  method CollectInstances(cs: seq<Connection>) returns (order: seq<string>, instances: map<string, InstanceUse>)
    ensures InstancesOf(cs, order, instances)
  {
    order := [];
    instances := map[];
    for k := 0 to |cs|
      invariant InstancesOf(cs[..k], order, instances)
    {
      var conn := cs[k];
      var inst := conn.instance;
      UsesDomain(cs[..k], inst);
      InstanceOrderSnoc(cs, k);
      UsesPrefixSnoc(cs, k);
      if inst !in instances {
        order := order + [inst];
      }
      instances := SetDefaultAdd(instances, conn);
    }
    TakeAll(cs);
  }

  /** `instances.setdefault(instance, …)` followed by adding the child port. */
  method SetDefaultAdd(instances: map<string, InstanceUse>, conn: Connection) returns (instances': map<string, InstanceUse>)
    ensures instances' == AddUse(instances, conn)
  {
    var inst := conn.instance;
    instances' := instances;
    if inst !in instances' {
      instances' := instances'[inst := InstanceUse(conn.childModule, {})];
    }
    instances' := instances'[inst := InstanceUse(instances'[inst].submodule, instances'[inst].ports + {conn.childPort})];
    if inst !in instances {
      assert {} + {conn.childPort} == {conn.childPort};
    }
  }

  /**
   * `detect_missing_connections`: for each instance name, in the order it
   * first appears, the ports of its submodule that none of its connections
   * binds, when there are any.
   */
  method DetectMissingConnections(system: System) returns (issues: seq<Issue>)
    ensures issues == MissingSpec(system)
  {
    var modulePorts := map m | m in system.modules :: system.modules[m].ports;
    var order, instances := CollectInstances(system.connections);
    UsesAll(system.connections);
    issues := [];
    for i := 0 to |order|
      invariant issues == IssuesOf(system.modules, order[..i], instances)
    {
      var inst := order[i];
      assert inst in order;
      var info := instances[inst];
      var missing := MissingOf(system.modules, modulePorts, info);
      IssuesOfTake(system.modules, order, instances, i);
      if |missing| > 0 {
        issues := issues + [Issue(inst, info.submodule, missing)];
      }
    }
    TakeAll(order);
  }

  /** The sorted ports of the instance's submodule that none of its connections binds. */
  method MissingOf(modules: map<string, ModuleInfo>, modulePorts: map<string, seq<string>>, info: InstanceUse)
    returns (missing: seq<string>)
    requires modulePorts == map m | m in modules :: modules[m].ports
    ensures missing == MissingPorts(ExpectedPorts(modules, info.submodule), info.ports)
  {
    var expected := if info.submodule in modulePorts then modulePorts[info.submodule] else [];
    missing := MissingPorts(expected, info.ports);
  }

  lemma IssuesOfTake(modules: map<string, ModuleInfo>, order: seq<string>, uses: map<string, InstanceUse>, i: nat)
    requires forall inst :: inst in order ==> inst in uses
    requires i < |order|
    ensures forall inst :: inst in order[..i + 1] ==> inst in uses
    ensures order[i] in uses
    ensures IssuesOf(modules, order[..i + 1], uses) == IssuesOf(modules, order[..i], uses) + IssueOf(modules, order[i], uses[order[i]])
  {
    assert order[i] in order;
    TakeTake(order, i);
  }
}
