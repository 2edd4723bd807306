/**
 * A plain JavaScript object used as a dictionary (TypeScript's `Record<string, V>`),
 * seen as its own properties in enumeration order.  Writing an existing key keeps its
 * position, writing a new key appends it, and `delete` removes it: those are the only
 * two writes the page performs on its objects.
 */
module JsObject {
  import opened Wrappers

  /** One own property: a key and its value. */
  datatype Prop<V> = Prop(key: string, value: V)

  /** The properties of an object in enumeration order (`Object.entries`). */
  type Record<V> = seq<Prop<V>>

  /** `Object.keys(r)`. */
  function Keys<V>(r: Record<V>): (ks: seq<string>)
    ensures |ks| == |r|
  {
    if r == [] then [] else [r[0].key] + Keys(r[1..])
  }

  /** The set of keys, for termination arguments over fresh-key searches. */
  function KeySet<V>(r: Record<V>): (s: set<string>)
    ensures forall k :: k in s <==> k in Keys(r)
  {
    set k | k in Keys(r)
  }

  /** A well-formed object: no key occurs twice. */
  predicate DistinctKeys<V>(r: Record<V>) {
    forall i, j :: 0 <= i < j < |r| ==> r[i].key != r[j].key
  }

  /** Position of the property named `k`. */
  function IndexOf<V>(r: Record<V>, k: string): (i: nat)
    requires k in Keys(r)
    ensures i < |r| && r[i].key == k
    ensures forall j :: 0 <= j < i ==> r[j].key != k
  {
    if r[0].key == k then 0 else IndexOf(r[1..], k) + 1
  }

  /** `r[k]`: the value stored under `k`, or `None` for `undefined`. */
  function Get<V>(r: Record<V>, k: string): (v: Option<V>)
    ensures v.Some? <==> k in Keys(r)
    ensures v.Some? ==> v.value == r[IndexOf(r, k)].value
  {
    if r == [] then None
    else if r[0].key == k then Some(r[0].value)
    else Get(r[1..], k)
  }

  /** `r[k] = v` on a copy of `r`. */
  function Assign<V>(r: Record<V>, k: string, v: V): (r': Record<V>)
    ensures k in Keys(r) ==> r' == r[IndexOf(r, k) := Prop(k, v)]
    ensures k !in Keys(r) ==> r' == r + [Prop(k, v)]
  {
    if r == [] then [Prop(k, v)]
    else if r[0].key == k then [Prop(k, v)] + r[1..]
    else
      assert Keys(r) == [r[0].key] + Keys(r[1..]);
      assert k in Keys(r) ==> k in Keys(r[1..]) && IndexOf(r, k) == IndexOf(r[1..], k) + 1;
      [r[0]] + Assign(r[1..], k, v)
  }

  /** `delete r[k]` on a copy of `r`. */
  function Delete<V>(r: Record<V>, k: string): (r': Record<V>)
    ensures |r'| <= |r|
    ensures k !in Keys(r) ==> r' == r
  {
    if r == [] then []
    else if r[0].key == k then Delete(r[1..], k)
    else
      assert Keys(r) == [r[0].key] + Keys(r[1..]);
      [r[0]] + Delete(r[1..], k)
  }

  /** In an object holding `k` once, `delete r[k]` removes exactly that property and keeps the others in order. */
  lemma {:induction false} DeleteAt<V>(r: Record<V>, k: string)
    requires DistinctKeys(r) && k in Keys(r)
    ensures Delete(r, k) == r[..IndexOf(r, k)] + r[IndexOf(r, k) + 1..]
  {
    if r[0].key == k {
      DeleteHead(r, k);
      assert r[..0] + r[1..] == r[1..];
    } else {
      assert k in Keys(r[1..]) by {
        assert Keys(r) == [r[0].key] + Keys(r[1..]);
      }
      assert DistinctKeys(r[1..]);
      DeleteAt(r[1..], k);
      var i := IndexOf(r[1..], k);
      assert IndexOf(r, k) == i + 1;
      DeleteStep(r, k, i);
    }
  }

  /** The step of `DeleteAt` past a first property that is not `k`. */
  lemma DeleteStep<V>(r: Record<V>, k: string, i: nat)
    requires r != [] && r[0].key != k && i < |r| - 1
    requires Delete(r[1..], k) == r[1..][..i] + r[1..][i + 1..]
    ensures Delete(r, k) == r[..i + 1] + r[i + 2..]
  {
    var t := r[1..];
    assert Delete(r, k) == [r[0]] + Delete(t, k);
    assert r[..i + 1] == [r[0]] + t[..i];
    assert r[i + 2..] == t[i + 1..];
  }

  /** Deleting the first key of an object that holds it once drops the first property. */
  lemma DeleteHead<V>(r: Record<V>, k: string)
    requires DistinctKeys(r) && r != [] && r[0].key == k
    ensures Delete(r, k) == r[1..]
  {
    var t := r[1..];
    assert forall i :: 0 <= i < |t| ==> t[i].key != k by {
      forall i | 0 <= i < |t| ensures t[i].key != k {
        assert t[i] == r[i + 1];
      }
    }
    NotAKey(t, k);
  }

  /** A key no property carries is not listed. */
  lemma {:induction false} NotAKey<V>(r: Record<V>, k: string)
    requires forall i :: 0 <= i < |r| ==> r[i].key != k
    ensures k !in Keys(r)
  {
    if r != [] {
      assert forall i :: 0 <= i < |r[1..]| ==> r[1..][i].key != k by {
        forall i | 0 <= i < |r[1..]| ensures r[1..][i].key != k {
          assert r[1..][i] == r[i + 1];
        }
      }
      NotAKey(r[1..], k);
    }
  }

  /** Reading any key after `r[k] = v`: `k` gives `v`, every other key what it gave before. */
  lemma {:induction false} AssignGet<V>(r: Record<V>, k: string, v: V, k': string)
    ensures Get(Assign(r, k, v), k') == if k' == k then Some(v) else Get(r, k')
  {
    if r != [] && r[0].key != k {
      AssignGet(r[1..], k, v, k');
      assert Assign(r, k, v)[1..] == Assign(r[1..], k, v);
    }
  }

  /** `r[k] = v` keeps the key order, adding `k` at the end when it is new. */
  lemma {:induction false} AssignKeys<V>(r: Record<V>, k: string, v: V)
    ensures Keys(Assign(r, k, v)) == if k in Keys(r) then Keys(r) else Keys(r) + [k]
  {
    if r != [] && r[0].key != k {
      AssignKeys(r[1..], k, v);
      assert Assign(r, k, v)[1..] == Assign(r[1..], k, v);
    }
  }

  /** `r[k] = v` never introduces a duplicate key. */
  lemma {:induction false} AssignDistinct<V>(r: Record<V>, k: string, v: V)
    requires DistinctKeys(r)
    ensures DistinctKeys(Assign(r, k, v))
  {
    AssignKeys(r, k, v);
    var r' := Assign(r, k, v);
    forall i, j | 0 <= i < j < |r'| ensures r'[i].key != r'[j].key {
      KeysAt(r', i);
      KeysAt(r', j);
      if j < |r| {
        KeysAt(r, i);
        KeysAt(r, j);
      } else {
        KeysAt(r, i);
      }
    }
  }

  /** Every property after `r[k] = v` was already there or is the new one. */
  lemma {:induction false} AssignProps<V>(r: Record<V>, k: string, v: V)
    ensures forall p :: p in Assign(r, k, v) ==> p in r || p == Prop(k, v)
  {
    if r != [] && r[0].key != k {
      AssignProps(r[1..], k, v);
    }
  }

  /** Reading any key after `delete r[k]`: `k` is undefined, every other key unchanged. */
  lemma {:induction false} DeleteGet<V>(r: Record<V>, k: string, k': string)
    ensures Get(Delete(r, k), k') == if k' == k then None else Get(r, k')
  {
    if r != [] {
      DeleteGet(r[1..], k, k');
    }
  }

  /** `delete r[k]` removes exactly one property when the object held `k`. */
  lemma {:induction false} DeleteLength<V>(r: Record<V>, k: string)
    requires DistinctKeys(r)
    ensures |Delete(r, k)| == if k in Keys(r) then |r| - 1 else |r|
  {
    if k in Keys(r) {
      DeleteAt(r, k);
    }
  }

  /** `delete r[k]` never introduces a duplicate key. */
  lemma {:induction false} DeleteDistinct<V>(r: Record<V>, k: string)
    requires DistinctKeys(r)
    ensures DistinctKeys(Delete(r, k))
  {
    if k in Keys(r) {
      DeleteAt(r, k);
    }
  }

  /** The key of position `i`. */
  lemma {:induction false} KeysAt<V>(r: Record<V>, i: nat)
    requires i < |r|
    ensures Keys(r)[i] == r[i].key
  {
    if i > 0 {
      KeysAt(r[1..], i - 1);
    }
  }

  /**
   * Renaming a key the way the page does it, `delete r[a]; r[b] = v`: `a` is gone, `b`
   * holds `v` (overwriting any property already named `b`), nothing else changes; the
   * renamed property moves to the end unless `b` existed, in which case it stays where
   * `b` was.
   */
  lemma RenameKey<V>(r: Record<V>, a: string, b: string, v: V)
    requires DistinctKeys(r) && a != b
    ensures var r' := Assign(Delete(r, a), b, v);
      && a !in Keys(r')
      && Get(r', b) == Some(v)
      && (forall k :: k != a && k != b ==> Get(r', k) == Get(r, k))
      && DistinctKeys(r')
      && |r'| == |r| - (if a in Keys(r) then 1 else 0) + (if b in Keys(r) then 0 else 1)
      && (b !in Keys(r) ==> Keys(r') == Keys(Delete(r, a)) + [b])
      && (b in Keys(r) ==> Keys(r') == Keys(Delete(r, a)))
  {
    var d := Delete(r, a);
    DeleteDistinct(r, a);
    DeleteLength(r, a);
    DeleteGet(r, a, b);
    DeleteGet(r, a, a);
    forall k | k != a ensures Get(d, k) == Get(r, k) {
      DeleteGet(r, a, k);
    }
    AssignKeys(d, b, v);
    AssignDistinct(d, b, v);
    AssignGet(d, b, v, a);
    AssignGet(d, b, v, b);
    forall k | k != b ensures Get(Assign(d, b, v), k) == Get(d, k) {
      AssignGet(d, b, v, k);
    }
  }
}
