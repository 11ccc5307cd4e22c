/** Optional values, and sequences with one element more or less. */
module Collections {
  datatype Option<T> = None | Some(value: T)

  function Inserted<T>(s: seq<T>, i: nat, x: T): seq<T>
    requires i <= |s|
  {
    s[..i] + [x] + s[i..]
  }

  function Dropped<T>(s: seq<T>, i: nat): seq<T>
    requires i < |s|
  {
    s[..i] + s[i + 1..]
  }

  lemma InsertedAt<T>(s: seq<T>, i: nat, x: T)
    requires i <= |s|
    ensures |Inserted(s, i, x)| == |s| + 1
    ensures forall k :: 0 <= k <= |s| ==>
              Inserted(s, i, x)[k] == if k < i then s[k] else if k == i then x else s[k - 1]
  {
  }

  lemma InsertedIndex<T>(s: seq<T>, i: nat, x: T, k: nat)
    requires i <= |s| && k <= |s|
    ensures |Inserted(s, i, x)| == |s| + 1
    ensures Inserted(s, i, x)[k] == if k < i then s[k] else if k == i then x else s[k - 1]
  {
  }

  lemma DroppedAt<T>(s: seq<T>, i: nat)
    requires i < |s|
    ensures |Dropped(s, i)| == |s| - 1
    ensures forall k :: 0 <= k < i ==> Dropped(s, i)[k] == s[k]
    ensures forall k :: i <= k < |s| - 1 ==> Dropped(s, i)[k] == s[k + 1]
  {
  }

  lemma DroppedIndex<T>(s: seq<T>, i: nat, k: nat)
    requires i < |s| && k < |s| - 1
    ensures |Dropped(s, i)| == |s| - 1 && Dropped(s, i)[k] == s[if k < i then k else k + 1]
  {
  }
}
