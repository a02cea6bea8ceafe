/** Shared vocabulary of the server-framework model: bytes, optional values,
    the two size constants of the framework header, and flattening of a queue
    of byte buffers. */
module Common {

  /** One octet of a payload (the source handles payloads as `char` buffers). */
  newtype byte = x: int | 0 <= x < 256

  datatype Option<T> = None | Some(value: T)

  type Positive = n: nat | n > 0 witness 1

  /** OVERLAPPED_BUF_SIZE: the size of the fixed I/O buffer of every overlapped
      receive and send. Its value is defined in a header that is not part of this
      model, so it is left unspecified beyond being positive. */
  const OverlappedBufSize: Positive

  /** RECV_CACHE_LIMIT_SIZE: the largest receive cache a connection may build
      up by appending to a non-empty cache. Unspecified beyond being positive,
      for the same reason. */
  const RecvCacheLimitSize: Positive

  function Min(a: nat, b: nat): nat { if a <= b then a else b }

  function Max(a: nat, b: nat): nat { if a <= b then b else a }

  /** The bytes of a queue of buffers, front buffer first. */
  function Flatten(q: seq<seq<byte>>): seq<byte>
  {
    if q == [] then [] else q[0] + Flatten(q[1..])
  }

  lemma {:induction false} FlattenAppend(a: seq<seq<byte>>, b: seq<seq<byte>>)
    ensures Flatten(a + b) == Flatten(a) + Flatten(b)
  {
    if a == [] {
      assert a + b == b;
    } else {
      assert (a + b)[1..] == a[1..] + b;
      FlattenAppend(a[1..], b);
    }
  }

  ghost predicate NoDuplicates<T>(s: seq<T>)
  {
    forall i, j :: 0 <= i < j < |s| ==> s[i] != s[j]
  }

  /** The position of `x` in `s`; with no duplicates, the only one. */
  function IndexOf<T(==)>(s: seq<T>, x: T): (i: nat)
    requires x in s
    ensures i < |s| && s[i] == x
    ensures NoDuplicates(s) ==> forall j :: 0 <= j < |s| && s[j] == x ==> j == i
    ensures x !in s[..i]
  {
    if s[0] == x then 0 else IndexOf(s[1..], x) + 1
  }

  /** `s` with the element at position `i` erased; the order of the rest is kept. */
  function RemoveAt<T>(s: seq<T>, i: nat): (r: seq<T>)
    requires i < |s|
    ensures |r| == |s| - 1
    ensures multiset(r) == multiset(s) - multiset{s[i]}
    ensures forall j :: 0 <= j < i ==> r[j] == s[j]
    ensures forall j :: i <= j < |r| ==> r[j] == s[j + 1]
  {
    assert s == s[..i] + [s[i]] + s[i + 1..];
    s[..i] + s[i + 1..]
  }

  /** Erasing position `i` of a sequence without duplicates removes exactly that
      element and keeps the rest free of duplicates. */
  lemma RemoveAtMembers<T>(s: seq<T>, i: nat)
    requires i < |s| && NoDuplicates(s)
    ensures forall x :: x in RemoveAt(s, i) <==> x in s && x != s[i]
    ensures NoDuplicates(RemoveAt(s, i))
  {
    var r := RemoveAt(s, i);
    forall x | x in r ensures x in s && x != s[i] {
      var j :| 0 <= j < |r| && r[j] == x;
      if j < i { assert s[j] == x; } else { assert s[j + 1] == x; }
    }
    forall x | x in s && x != s[i] ensures x in r {
      var j :| 0 <= j < |s| && s[j] == x;
      if j < i { assert r[j] == x; } else { assert j != i && r[j - 1] == x; }
    }
  }
}
