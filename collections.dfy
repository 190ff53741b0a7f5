/** Small value-level helpers shared by the models: an Option type, the
    JavaScript truthiness of an optional string, and the key order of a
    JavaScript `Map` (insertion order, `set` of a present key keeps its place). */
module Collections {

  datatype Option<T> = None | Some(value: T)

  /** `if (x)` on a value that is either a string or null/undefined:
      the empty string is falsy too. */
  predicate Truthy(o: Option<string>) {
    o.Some? && o.value != ""
  }

  predicate NoDup<T(==)>(s: seq<T>) {
    forall i, j | 0 <= i < j < |s| :: s[i] != s[j]
  }

  /** The keys of a `Map` after `m.set(k, v)`: a new key goes last,
      an existing key keeps its position. */
  function InsertKey<T(==,!new)>(keys: seq<T>, k: T): (r: seq<T>)
    ensures NoDup(keys) ==> NoDup(r)
    ensures k in r && forall x :: x in r <==> x in keys || x == k
    ensures k in keys ==> r == keys
    ensures k !in keys ==> |r| == |keys| + 1 && r[|keys|] == k && r[..|keys|] == keys
  {
    if k in keys then keys else keys + [k]
  }

  /** The keys of a `Map` after `m.delete(k)`: every other key, in order. */
  function DeleteKey<T(==,!new)>(keys: seq<T>, k: T): (r: seq<T>)
    ensures NoDup(keys) ==> NoDup(r)
    ensures k !in r && forall x :: x in r <==> x in keys && x != k
    ensures NoDup(keys) && k in keys ==> |r| == |keys| - 1
    ensures k !in keys ==> r == keys
  {
    if keys == [] then []
    else if keys[0] == k then DeleteKey(keys[1..], k)
    else
      var rest := DeleteKey(keys[1..], k);
      assert NoDup(keys) ==> keys[0] !in rest;
      [keys[0]] + rest
  }

  /** Deleting the key at position i of a duplicate-free key list leaves the
      keys before it and the keys after it, each in their order. */
  lemma {:induction false} DeleteKeyKeepsOrder<T(!new)>(keys: seq<T>, k: T, i: nat)
    requires NoDup(keys) && i < |keys| && keys[i] == k
    ensures DeleteKey(keys, k) == keys[..i] + keys[i + 1..]
    decreases i
  {
    var tail := keys[1..];
    if i == 0 {
      assert DeleteKey(keys, k) == DeleteKey(tail, k);
      TailKeepsNoDup(keys);
      assert keys[..0] + keys[1..] == tail;
    } else {
      assert keys[0] != k;
      assert DeleteKey(keys, k) == [keys[0]] + DeleteKey(tail, k);
      TailKeepsNoDup(keys);
      assert tail[i - 1] == k;
      DeleteKeyKeepsOrder(tail, k, i - 1);
      calc {
        DeleteKey(keys, k);
        [keys[0]] + (tail[..i - 1] + tail[i..]);
        { assert keys[..i] == [keys[0]] + tail[..i - 1];
          assert keys[i + 1..] == tail[i..]; }
        keys[..i] + keys[i + 1..];
      }
    }
  }

  lemma TailKeepsNoDup<T>(keys: seq<T>)
    requires NoDup(keys) && keys != []
    ensures NoDup(keys[1..])
  {
    var tail := keys[1..];
    forall a, b | 0 <= a < b < |tail| ensures tail[a] != tail[b] {
      assert tail[a] == keys[a + 1] && tail[b] == keys[b + 1];
    }
  }
}
