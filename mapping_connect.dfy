/**
 * The connection map of the waveform-to-RTL mapper: every name variant of a
 * parent signal linked both ways to every name variant of the child port
 * it is bound to, and the search for a connected signal among the
 * waveform's column headers.
 */
module MappingConnect {

  import opened Base
  import opened Text
  import opened MappingNames
  import opened RtlSystem
  import Tables

  /** Each name to the names connected to it. */
  type ConnMap = map<string, seq<string>>

  // ---------------------------------------------------------------------
  // build_connection_map
  // ---------------------------------------------------------------------

  /** `sig`, `mod.sig` and `sig` cut at its first `[`. */
  function ParentNames(c: Connection): (ns: seq<string>)
    ensures |ns| == 3 && c.parentSignal in ns
  {
    [c.parentSignal, c.parentModule + "." + c.parentSignal, BeforeFirst(c.parentSignal, '[')]
  }

  /** `port`, `inst.port` and `port` cut at its first `[`. */
  function ChildNames(c: Connection): (ns: seq<string>)
    ensures |ns| == 3 && c.childPort in ns
  {
    [c.childPort, c.instance + "." + c.childPort, BeforeFirst(c.childPort, '[')]
  }

  /** `m.setdefault(k, []).append(v)` */
  function Append(m: ConnMap, k: string, v: string): ConnMap {
    m[k := (if k in m then m[k] else []) + [v]]
  }

  /** `v` is listed under `k`. */
  predicate Has(m: ConnMap, k: string, v: string) {
    k in m && v in m[k]
  }

  lemma AppendHas(m: ConnMap, k: string, v: string, a: string, b: string)
    ensures Has(Append(m, k, v), a, b) <==> Has(m, a, b) || (a == k && b == v)
    ensures a in Append(m, k, v) <==> a in m || a == k
  {
    if a == k {
      var old_ := if k in m then m[k] else [];
      assert Append(m, k, v)[k] == old_ + [v];
      assert b in old_ + [v] <==> b in old_ || b == v;
    }
  }

  /** Both directions of one parent name and one child name. */
  function Link(m: ConnMap, p: string, ch: string): ConnMap {
    Append(Append(m, p, ch), ch, p)
  }

  lemma LinkHas(m: ConnMap, p: string, ch: string, a: string, b: string)
    ensures Has(Link(m, p, ch), a, b) <==> Has(m, a, b) || (a == p && b == ch) || (a == ch && b == p)
    ensures a in Link(m, p, ch) <==> a in m || a == p || a == ch
  {
    AppendHas(m, p, ch, a, b);
    AppendHas(Append(m, p, ch), ch, p, a, b);
  }

  /** The inner loop: one parent name against the child names in order. */
  function LinkChildren(m: ConnMap, p: string, children: seq<string>): ConnMap
    decreases |children|
  {
    if |children| == 0 then m
    else Link(LinkChildren(m, p, children[..|children| - 1]), p, children[|children| - 1])
  }

  lemma {:induction false} LinkChildrenHas(m: ConnMap, p: string, children: seq<string>, a: string, b: string)
    ensures Has(LinkChildren(m, p, children), a, b) <==>
      Has(m, a, b) || (a == p && b in children) || (a in children && b == p)
    ensures a in LinkChildren(m, p, children) <==> a in m || (a == p && |children| > 0) || a in children
    decreases |children|
  {
    if |children| > 0 {
      var n := |children| - 1;
      LinkChildrenHas(m, p, children[..n], a, b);
      LinkHas(LinkChildren(m, p, children[..n]), p, children[n], a, b);
      InFrontOrLast(children, a);
      InFrontOrLast(children, b);
    }
  }

  /** The outer loop: every parent name against every child name. */
  function LinkAll(m: ConnMap, parents: seq<string>, children: seq<string>): ConnMap
    decreases |parents|
  {
    if |parents| == 0 then m
    else LinkChildren(LinkAll(m, parents[..|parents| - 1], children), parents[|parents| - 1], children)
  }

  lemma {:induction false} LinkAllHas(m: ConnMap, parents: seq<string>, children: seq<string>, a: string, b: string)
    requires |children| > 0
    ensures Has(LinkAll(m, parents, children), a, b) <==>
      Has(m, a, b) || (a in parents && b in children) || (a in children && b in parents)
    ensures a in LinkAll(m, parents, children) <==> a in m || a in parents || (a in children && |parents| > 0)
    decreases |parents|
  {
    if |parents| > 0 {
      var n := |parents| - 1;
      LinkAllHas(m, parents[..n], children, a, b);
      LinkChildrenHas(LinkAll(m, parents[..n], children), parents[n], children, a, b);
      InFrontOrLast(parents, a);
      InFrontOrLast(parents, b);
    }
  }

  /** The map before duplicates are removed: the connections in order. */
  function RawMap(conns: seq<Connection>): ConnMap
    decreases |conns|
  {
    if |conns| == 0 then map[]
    else
      var c := conns[|conns| - 1];
      LinkAll(RawMap(conns[..|conns| - 1]), ParentNames(c), ChildNames(c))
  }

  /** Some connection links `a` (as either end) to `b` (as the other end). */
  predicate Linked(conns: seq<Connection>, a: string, b: string) {
    exists i :: 0 <= i < |conns| &&
      ((a in ParentNames(conns[i]) && b in ChildNames(conns[i])) ||
       (a in ChildNames(conns[i]) && b in ParentNames(conns[i])))
  }

  /** `a` is a name variant of some connection. */
  predicate Named(conns: seq<Connection>, a: string) {
    exists i :: 0 <= i < |conns| && (a in ParentNames(conns[i]) || a in ChildNames(conns[i]))
  }

  /** Linking through the connections with one more at the end. */
  lemma LinkedSnoc(conns: seq<Connection>, a: string, b: string)
    requires |conns| > 0
    ensures var n := |conns| - 1;
      Linked(conns, a, b) <==>
        (Linked(conns[..n], a, b) ||
         (a in ParentNames(conns[n]) && b in ChildNames(conns[n])) ||
         (a in ChildNames(conns[n]) && b in ParentNames(conns[n])))
    ensures var n := |conns| - 1;
      Named(conns, a) <==> Named(conns[..n], a) || a in ParentNames(conns[n]) || a in ChildNames(conns[n])
  {
    var n := |conns| - 1;
    assert forall i :: 0 <= i < n ==> conns[..n][i] == conns[i];
  }

  lemma {:induction false} RawMapHas(conns: seq<Connection>, a: string, b: string)
    ensures Has(RawMap(conns), a, b) <==> Linked(conns, a, b)
    ensures a in RawMap(conns) <==> Named(conns, a)
    decreases |conns|
  {
    if |conns| > 0 {
      var n := |conns| - 1;
      var c := conns[n];
      RawMapHas(conns[..n], a, b);
      LinkAllHas(RawMap(conns[..n]), ParentNames(c), ChildNames(c), a, b);
      LinkedSnoc(conns, a, b);
    }
  }

  /** `conn_map` once every list has its duplicates removed. */
  function ConnectionMap(conns: seq<Connection>): (m: ConnMap)
    ensures m.Keys == RawMap(conns).Keys
    ensures forall k :: k in m ==> NoDup(m[k])
  {
    map k | k in RawMap(conns) :: Dedup(RawMap(conns)[k])
  }

  /**
   * `b` is listed under `a` exactly when one connection has `a` as a name
   * variant of one end and `b` of the other; a name is a key exactly when
   * it is a name variant of some connection.
   */
  lemma ConnectionMapMembers(conns: seq<Connection>, a: string, b: string)
    ensures Has(ConnectionMap(conns), a, b) <==> Linked(conns, a, b)
    ensures a in ConnectionMap(conns) <==> Named(conns, a)
  {
    RawMapHas(conns, a, b);
  }

  /** The map is symmetric: `b` is listed under `a` exactly when `a` is listed under `b`. */
  lemma ConnectionMapSymmetric(conns: seq<Connection>, a: string, b: string)
    ensures Has(ConnectionMap(conns), a, b) <==> Has(ConnectionMap(conns), b, a)
  {
    ConnectionMapMembers(conns, a, b);
    ConnectionMapMembers(conns, b, a);
  }

  /** Every parent name variant of a connection lists every child name variant, and back. */
  lemma ConnectionMapVariants(conns: seq<Connection>, i: nat, p: string, ch: string)
    requires i < |conns| && p in ParentNames(conns[i]) && ch in ChildNames(conns[i])
    ensures Has(ConnectionMap(conns), p, ch) && Has(ConnectionMap(conns), ch, p)
  {
    ConnectionMapMembers(conns, p, ch);
    ConnectionMapMembers(conns, ch, p);
  }

  /** No direct connections, no map. */
  lemma ConnectionMapEmpty()
    ensures ConnectionMap([]) == map[]
  {
  }

  /** The values with duplicates removed for the keys in `done`, untouched for the rest. */
  function DedupSome(raw: ConnMap, done: set<string>): (m: ConnMap)
    ensures m.Keys == raw.Keys
  {
    map k | k in raw :: if k in done then Dedup(raw[k]) else raw[k]
  }

  /** `for key in conn_map: conn_map[key] = list(set(conn_map[key]))` */
  method DedupValues(raw: ConnMap) returns (m: ConnMap)
    ensures m == map k | k in raw :: Dedup(raw[k])
  {
    m := raw;
    var todo := raw.Keys;
    while todo != {}
      invariant todo <= raw.Keys
      invariant m == DedupSome(raw, raw.Keys - todo)
      decreases |todo|
    {
      var key :| key in todo;
      Tables.VisitOne(raw.Keys, todo, key);
      DedupStep(raw, raw.Keys - todo, key);
      m := m[key := Dedup(m[key])];
      todo := todo - {key};
    }
    Tables.VisitedAll(raw.Keys);
  }

  lemma DedupStep(raw: ConnMap, done: set<string>, k: string)
    requires k in raw && k !in done
    ensures k in DedupSome(raw, done) && DedupSome(raw, done)[k] == raw[k]
    ensures DedupSome(raw, done)[k := Dedup(raw[k])] == DedupSome(raw, done + {k})
  {
  }

  /** The innermost loop: one parent name linked both ways with each child name. */
  method LinkParent(raw: ConnMap, p: string, children: seq<string>) returns (raw': ConnMap)
    ensures raw' == LinkChildren(raw, p, children)
  {
    raw' := raw;
    for k := 0 to |children|
      invariant raw' == LinkChildren(raw, p, children[..k])
    {
      TakeTake(children, k);
      raw' := Append(raw', p, children[k]);
      raw' := Append(raw', children[k], p);
    }
    TakeAll(children);
  }

  /** The two nested loops for one direct connection. */
  method LinkConnection(raw: ConnMap, c: Connection) returns (raw': ConnMap)
    ensures raw' == LinkAll(raw, ParentNames(c), ChildNames(c))
  {
    var parents := ParentNames(c);
    var children := ChildNames(c);
    raw' := raw;
    for j := 0 to |parents|
      invariant raw' == LinkAll(raw, parents[..j], children)
    {
      TakeTake(parents, j);
      raw' := LinkParent(raw', parents[j], children);
    }
    TakeAll(parents);
  }

  /** `build_connection_map(connectivity)`, given the `connections_direct` list. */
  method BuildConnectionMap(conns: seq<Connection>) returns (m: ConnMap)
    ensures m == ConnectionMap(conns)
  {
    var raw: ConnMap := map[];
    for i := 0 to |conns|
      invariant raw == RawMap(conns[..i])
    {
      TakeTake(conns, i);
      raw := LinkConnection(raw, conns[i]);
    }
    TakeAll(conns);
    m := DedupValues(raw);
  }

  // ---------------------------------------------------------------------
  // find_connected_signal
  // ---------------------------------------------------------------------

  /** The four ways a header can stand for a connected name, in the order they are tried. */
  datatype Strategy = ExactName | NormalisedName | LastComponent | Suffix

  function Rank(st: Strategy): nat {
    match st
    case ExactName => 0
    case NormalisedName => 1
    case LastComponent => 2
    case Suffix => 3
  }

  /** Header `h` stands for the connected name `c` under `st`. */
  predicate Matches(st: Strategy, c: string, h: string) {
    match st
    case ExactName => h == c
    case NormalisedName => Normalize(h) == Normalize(c)
    case LastComponent => LastPartClean(h) == LastPart(c)
    case Suffix => EndsWith(h, "." + c) || EndsWith(h, "_" + c)
  }

  /** The first header at or after `i` that `accept` takes for `c` under `st`. */
  function FirstHit(accept: (Strategy, string, string) -> bool, st: Strategy, c: string, headers: seq<string>, i: nat)
    : (r: Option<nat>)
    requires i <= |headers|
    ensures r.Some? ==> (i <= r.value < |headers| && accept(st, c, headers[r.value]) &&
      forall k :: i <= k < r.value ==> !accept(st, c, headers[k]))
    ensures r.None? ==> forall k :: i <= k < |headers| ==> !accept(st, c, headers[k])
    decreases |headers| - i
  {
    if i == |headers| then None
    else if accept(st, c, headers[i]) then Some(i)
    else FirstHit(accept, st, c, headers, i + 1)
  }

  /** One connected name tried against the headers, strategy after strategy. */
  function CandidateMatch(accept: (Strategy, string, string) -> bool, c: string, headers: seq<string>)
    : (r: Option<(string, nat)>)
    ensures r.Some? ==> r.value.1 < |headers| && headers[r.value.1] == r.value.0
  {
    match FirstHit(accept, ExactName, c, headers, 0)
    case Some(i) => Some((headers[i], i))
    case None =>
      match FirstHit(accept, NormalisedName, c, headers, 0)
      case Some(i) => Some((headers[i], i))
      case None =>
        match FirstHit(accept, LastComponent, c, headers, 0)
        case Some(i) => Some((headers[i], i))
        case None =>
          match FirstHit(accept, Suffix, c, headers, 0)
          case Some(i) => Some((headers[i], i))
          case None => None
  }

  /** Among the headers `st` accepts, `i` is the first, and no earlier strategy accepts any header. */
  predicate FirstUnder(accept: (Strategy, string, string) -> bool, st: Strategy, c: string, headers: seq<string>, i: nat)
    requires i < |headers|
  {
    accept(st, c, headers[i]) &&
    (forall k :: 0 <= k < i ==> !accept(st, c, headers[k])) &&
    (forall st', k :: Rank(st') < Rank(st) && 0 <= k < |headers| ==> !accept(st', c, headers[k]))
  }

  /**
   * A connected name is found at the first header of the first strategy
   * that accepts any header (exact name, then normalised name, then last
   * component, then `.`/`_` suffix), and is not found when no strategy
   * accepts any header.
   */
  lemma CandidateMatchOrder(accept: (Strategy, string, string) -> bool, c: string, headers: seq<string>)
    ensures CandidateMatch(accept, c, headers).Some? ==>
      exists st :: FirstUnder(accept, st, c, headers, CandidateMatch(accept, c, headers).value.1)
    ensures CandidateMatch(accept, c, headers).None? <==>
      forall st, k :: 0 <= k < |headers| ==> !accept(st, c, headers[k])
  {
    var e := FirstHit(accept, ExactName, c, headers, 0);
    var n := FirstHit(accept, NormalisedName, c, headers, 0);
    var l := FirstHit(accept, LastComponent, c, headers, 0);
    var s := FirstHit(accept, Suffix, c, headers, 0);
    if e.Some? {
      assert FirstUnder(accept, ExactName, c, headers, e.value);
    } else if n.Some? {
      assert FirstUnder(accept, NormalisedName, c, headers, n.value);
    } else if l.Some? {
      assert FirstUnder(accept, LastComponent, c, headers, l.value);
    } else if s.Some? {
      assert FirstUnder(accept, Suffix, c, headers, s.value);
    } else {
      forall st, k | 0 <= k < |headers|
        ensures !accept(st, c, headers[k])
      {
        match st
        case ExactName =>
        case NormalisedName =>
        case LastComponent =>
        case Suffix =>
      }
    }
  }

  /** The first connected name, in list order, that some header stands for. */
  function FirstCandidate(accept: (Strategy, string, string) -> bool, cands: seq<string>, headers: seq<string>)
    : (r: Option<(string, nat)>)
    ensures r.Some? ==> r.value.1 < |headers| && headers[r.value.1] == r.value.0
    decreases |cands|
  {
    if |cands| == 0 then None
    else
      match CandidateMatch(accept, cands[0], headers)
      case Some(hit) => Some(hit)
      case None => FirstCandidate(accept, cands[1..], headers)
  }

  lemma FirstCandidateOrder(accept: (Strategy, string, string) -> bool, cands: seq<string>, headers: seq<string>)
    ensures FirstCandidate(accept, cands, headers).Some? ==>
      exists j :: 0 <= j < |cands| && CandidateMatch(accept, cands[j], headers) == FirstCandidate(accept, cands, headers) &&
        forall k :: 0 <= k < j ==> CandidateMatch(accept, cands[k], headers).None?
    ensures FirstCandidate(accept, cands, headers).None? <==>
      forall j :: 0 <= j < |cands| ==> CandidateMatch(accept, cands[j], headers).None?
  {
    if FirstCandidate(accept, cands, headers).Some? {
      FirstCandidateSome(accept, cands, headers);
    }
    FirstCandidateNone(accept, cands, headers);
  }

  lemma {:induction false} FirstCandidateSome(accept: (Strategy, string, string) -> bool, cands: seq<string>,
                                              headers: seq<string>)
    requires FirstCandidate(accept, cands, headers).Some?
    ensures exists j :: (0 <= j < |cands| && CandidateMatch(accept, cands[j], headers) == FirstCandidate(accept, cands, headers) &&
      forall k :: 0 <= k < j ==> CandidateMatch(accept, cands[k], headers).None?)
    decreases |cands|
  {
    if CandidateMatch(accept, cands[0], headers).Some? {
      assert CandidateMatch(accept, cands[0], headers) == FirstCandidate(accept, cands, headers);
    } else {
      var rest := cands[1..];
      FirstCandidateSome(accept, rest, headers);
      var j :| 0 <= j < |rest| && CandidateMatch(accept, rest[j], headers) == FirstCandidate(accept, rest, headers) &&
        forall k :: 0 <= k < j ==> CandidateMatch(accept, rest[k], headers).None?;
      assert cands[j + 1] == rest[j];
      forall k | 0 <= k < j + 1 ensures CandidateMatch(accept, cands[k], headers).None? {
        if k > 0 {
          assert cands[k] == rest[k - 1];
        }
      }
    }
  }

  lemma {:induction false} FirstCandidateNone(accept: (Strategy, string, string) -> bool, cands: seq<string>,
                                              headers: seq<string>)
    ensures FirstCandidate(accept, cands, headers).None? <==>
      forall j :: 0 <= j < |cands| ==> CandidateMatch(accept, cands[j], headers).None?
    decreases |cands|
  {
    if |cands| > 0 && CandidateMatch(accept, cands[0], headers).None? {
      var rest := cands[1..];
      FirstCandidateNone(accept, rest, headers);
      assert forall j :: 1 <= j < |cands| ==> rest[j - 1] == cands[j];
    }
  }

  /** `find_connected_signal(sig_name, headers, conn_map)`: a header and its index, or nothing. */
  function FindConnectedSignal(sig: string, headers: seq<string>, cm: ConnMap): (r: Option<(string, nat)>)
    ensures sig !in cm ==> r.None?
    ensures r.Some? ==> r.value.1 < |headers| && headers[r.value.1] == r.value.0
  {
    if sig !in cm then None else FirstCandidate(Matches, cm[sig], headers)
  }

  /**
   * The connected names of `sig` are tried in their listed order; the
   * result comes from the first one that some header stands for.
   */
  lemma FindConnectedOrder(sig: string, headers: seq<string>, cm: ConnMap)
    requires sig in cm
    ensures FindConnectedSignal(sig, headers, cm).Some? ==>
      exists j :: 0 <= j < |cm[sig]| && CandidateMatch(Matches, cm[sig][j], headers) == FindConnectedSignal(sig, headers, cm) &&
        forall k :: 0 <= k < j ==> CandidateMatch(Matches, cm[sig][k], headers).None?
    ensures FindConnectedSignal(sig, headers, cm).None? <==>
      forall j :: 0 <= j < |cm[sig]| ==> CandidateMatch(Matches, cm[sig][j], headers).None?
  {
    FirstCandidateOrder(Matches, cm[sig], headers);
  }
}
