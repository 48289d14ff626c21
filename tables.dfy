/**
 * Dictionaries and lists built by loops in the source, stated once for any
 * key and value type: a dict filled from a list of keys, dicts laid over
 * one another, and the results a loop appends.
 */
module Tables {

  import opened Base
  import opened Text

  /** The keys of `keys` that `f` labels, each mapped to its label. */
  function Labelled<K(==,!new), V>(keys: seq<K>, f: K -> Option<V>): (m: map<K, V>)
    ensures forall k :: k in m <==> k in keys && f(k).Some?
    ensures forall k :: k in m ==> m[k] == f(k).value
  {
    map k | k in Elems(keys) && f(k).Some? :: f(k).value
  }

  /** One more key: it takes its label, if it has one, over what is there. */
  lemma LabelledSnoc<K(!new), V>(base: map<K, V>, keys: seq<K>, j: nat, f: K -> Option<V>)
    requires j < |keys|
    ensures f(keys[j]).None? ==> base + Labelled(keys[..j + 1], f) == base + Labelled(keys[..j], f)
    ensures f(keys[j]).Some? ==>
      base + Labelled(keys[..j + 1], f) == (base + Labelled(keys[..j], f))[keys[j] := f(keys[j]).value]
  {
    TakeSnoc(keys, j);
    forall k ensures k in keys[..j + 1] <==> k in keys[..j] || k == keys[j] {
      InFrontOrLast(keys[..j + 1], k);
    }
  }

  /** `for k in keys: if f(k) is not None: m[k] = f(k)` */
  method LabelAll<V>(m: map<string, V>, keys: seq<string>, f: string -> Option<V>) returns (m': map<string, V>)
    ensures m' == m + Labelled(keys, f)
  {
    m' := m;
    for j := 0 to |keys|
      invariant m' == m + Labelled(keys[..j], f)
    {
      LabelledSnoc(m, keys, j, f);
      var tag := f(keys[j]);
      if tag.Some? {
        m' := m'[keys[j] := tag.value];
      }
    }
    TakeAll(keys);
  }

  /** Maps laid over one another from left to right: a later entry wins. */
  function Overlay<K, V>(ms: seq<map<K, V>>): map<K, V>
    decreases |ms|
  {
    if |ms| == 0 then map[] else Overlay(ms[..|ms| - 1]) + ms[|ms| - 1]
  }

  /** A key is in the overlay exactly when some map has it, and its value comes from the last such map. */
  lemma {:induction false} OverlayLast<K, V>(ms: seq<map<K, V>>, k: K)
    ensures k in Overlay(ms) <==> exists i :: 0 <= i < |ms| && k in ms[i]
    ensures k in Overlay(ms) ==>
      exists i :: 0 <= i < |ms| && k in ms[i] && Overlay(ms)[k] == ms[i][k] &&
        forall j :: i < j < |ms| ==> k !in ms[j]
    decreases |ms|
  {
    if |ms| > 0 {
      var n := |ms| - 1;
      OverlayLast(ms[..n], k);
      assert forall i :: 0 <= i < n ==> ms[..n][i] == ms[i];
      if k !in ms[n] && k in Overlay(ms[..n]) {
        var i :| 0 <= i < n && k in ms[..n][i] && Overlay(ms[..n])[k] == ms[..n][i][k] &&
          forall j :: i < j < n ==> k !in ms[..n][j];
        assert k in ms[i] && forall j :: i < j < |ms| ==> k !in ms[j];
      }
    }
  }

  /** The `Some` results of `f` over `xs`, in order. */
  function Collect<A, B>(f: A -> Option<B>, xs: seq<A>): seq<B>
    decreases |xs|
  {
    if |xs| == 0 then []
    else
      var init := Collect(f, xs[..|xs| - 1]);
      match f(xs[|xs| - 1])
      case Some(y) => init + [y]
      case None => init
  }

  /** Collecting over two lists one after the other keeps their order. */
  lemma {:induction false} CollectAppend<A, B>(f: A -> Option<B>, xs: seq<A>, ys: seq<A>)
    ensures Collect(f, xs + ys) == Collect(f, xs) + Collect(f, ys)
    decreases |ys|
  {
    if |ys| > 0 {
      var n := |ys| - 1;
      assert (xs + ys)[..|xs + ys| - 1] == xs + ys[..n];
      assert (xs + ys)[|xs + ys| - 1] == ys[n];
      CollectAppend(f, xs, ys[..n]);
    } else {
      assert xs + ys == xs;
    }
  }

  /** A value is collected exactly when `f` yields it for some element. */
  lemma {:induction false} CollectMembers<A, B>(f: A -> Option<B>, xs: seq<A>, y: B)
    ensures y in Collect(f, xs) <==> exists k :: 0 <= k < |xs| && f(xs[k]) == Some(y)
    decreases |xs|
  {
    if |xs| > 0 {
      var n := |xs| - 1;
      CollectMembers(f, xs[..n], y);
      assert forall k :: 0 <= k < n ==> xs[..n][k] == xs[k];
    }
  }

  /** The collected values of a list with one more element. */
  lemma CollectSnoc<A, B>(f: A -> Option<B>, xs: seq<A>, j: nat)
    requires j < |xs|
    ensures f(xs[j]).None? ==> Elems(Collect(f, xs[..j + 1])) == Elems(Collect(f, xs[..j]))
    ensures f(xs[j]).Some? ==> Elems(Collect(f, xs[..j + 1])) == Elems(Collect(f, xs[..j])) + {f(xs[j]).value}
  {
    TakeTake(xs, j);
    if f(xs[j]).Some? {
      var c := Collect(f, xs[..j]);
      var v := f(xs[j]).value;
      forall y ensures y in c + [v] <==> y in c || y == v {
        InFrontOrLast(c + [v], y);
        TakeSnoc(c + [v], |c|);
      }
    }
  }

  /** `for x in xs: if f(x) is not None: acc.add(f(x))` */
  method AddAll<A, B>(acc: set<B>, xs: seq<A>, f: A -> Option<B>) returns (acc': set<B>)
    ensures acc' == acc + Elems(Collect(f, xs))
  {
    acc' := acc;
    for j := 0 to |xs|
      invariant acc' == acc + Elems(Collect(f, xs[..j]))
    {
      CollectSnoc(f, xs, j);
      var found := f(xs[j]);
      if found.Some? {
        acc' := acc' + {found.value};
      }
    }
    TakeAll(xs);
  }

  /** The members of `keys` that `f` labels, each mapped to its label. */
  function LabelledSet<K(!new), V>(keys: set<K>, f: K -> Option<V>): (m: map<K, V>)
  {
    map k | k in keys && f(k).Some? :: f(k).value
  }

  lemma LabelledSetMembers<K(!new), V>(keys: set<K>, f: K -> Option<V>)
    ensures forall k :: k in LabelledSet(keys, f) <==> k in keys && f(k).Some?
    ensures forall k :: k in LabelledSet(keys, f) ==> LabelledSet(keys, f)[k] == f(k).value
  {
  }

  /** One more member visited: it takes its label, if it has one, over what is there. */
  lemma LabelledSetAdd<K(!new), V>(base: map<K, V>, done: set<K>, k: K, f: K -> Option<V>)
    requires k !in done
    ensures k in base + LabelledSet(done, f) <==> k in base
    ensures f(k).None? ==> base + LabelledSet(done + {k}, f) == base + LabelledSet(done, f)
    ensures f(k).Some? ==> base + LabelledSet(done + {k}, f) == (base + LabelledSet(done, f))[k := f(k).value]
  {
  }

  /** The members of `keys` that satisfy `p`. */
  function Filter<K(!new)>(keys: set<K>, p: K -> bool): (r: set<K>)
  {
    set k | k in keys && p(k)
  }

  lemma FilterMembers<K(!new)>(keys: set<K>, p: K -> bool)
    ensures forall k :: k in Filter(keys, p) <==> k in keys && p(k)
  {
  }

  /** One more member visited. */
  lemma FilterAdd<K(!new)>(done: set<K>, k: K, p: K -> bool)
    ensures p(k) ==> Filter(done + {k}, p) == Filter(done, p) + {k}
    ensures !p(k) ==> Filter(done + {k}, p) == Filter(done, p)
  {
  }

  /** Moving one member from the still-to-visit set to the visited ones. */
  lemma VisitOne<K>(toks: set<K>, todo: set<K>, k: K)
    requires todo <= toks && k in todo
    ensures todo - {k} <= toks
    ensures toks - (todo - {k}) == (toks - todo) + {k}
    ensures k !in toks - todo
    ensures |todo - {k}| < |todo|
  {
  }

  lemma VisitedAll<K>(toks: set<K>)
    ensures toks - {} == toks
  {
  }
}
