/** Length/type records and their concatenation. */
module Records {
  import opened Common

  type Bytes = seq<byte>

  /** A descriptor record: its first byte is its length, its second one its type. */
  type Record = r: Bytes | |r| >= 2 && r[0] == |r| witness [2, 0]

  function TypeOf(r: Record): byte { r[1] }

  function Flatten(rs: seq<Bytes>): Bytes {
    if rs == [] then [] else rs[0] + Flatten(rs[1..])
  }

  function TotalLength(rs: seq<Bytes>): nat {
    if rs == [] then 0 else |rs[0]| + TotalLength(rs[1..])
  }

  /** The records a block of bytes consists of, if every record has a length of at least 2 and fits. */
  function Split(b: Bytes): Option<seq<Record>>
    decreases |b|
  {
    if b == [] then Some([])
    else if b[0] < 2 || b[0] > |b| then None
    else
      var r: Record := b[..b[0]];
      var rest := Split(b[b[0]..]);
      if rest == None then None else Some([r] + rest.value)
  }

  lemma {:induction false} FlattenAppend(a: seq<Bytes>, b: seq<Bytes>)
    ensures Flatten(a + b) == Flatten(a) + Flatten(b)
  {
    if a == [] {
      assert a + b == b;
    } else {
      assert (a + b)[1..] == a[1..] + b;
      FlattenAppend(a[1..], b);
    }
  }

  lemma {:induction false} FlattenLength(rs: seq<Bytes>)
    ensures |Flatten(rs)| == TotalLength(rs)
  {
    if rs != [] {
      FlattenLength(rs[1..]);
    }
  }

  lemma {:induction false} SplitFlatten(rs: seq<Record>)
    ensures Split(Flatten(rs)) == Some(rs)
  {
    if rs != [] {
      var b := Flatten(rs);
      assert b[..b[0]] == rs[0] && b[b[0]..] == Flatten(rs[1..]);
      SplitFlatten(rs[1..]);
      assert [rs[0]] + rs[1..] == rs;
    }
  }

  lemma {:induction false} FlattenSplit(b: Bytes)
    requires Split(b).Some?
    ensures Flatten(Split(b).value) == b
    decreases |b|
  {
    if b != [] {
      FlattenSplit(b[b[0]..]);
    }
  }

  lemma TailOfSum<T>(a: seq<T>, b: seq<T>)
    requires a != []
    ensures (a + b)[0] == a[0] && (a + b)[1..] == a[1..] + b
  {}

  lemma Around<T>(s: seq<T>, k: nat)
    requires k < |s|
    ensures s == s[..k] + ([s[k]] + s[k + 1..])
  {}

  function Without<T>(s: seq<T>, k: nat): seq<T>
    requires k < |s|
  {
    s[..k] + s[k + 1..]
  }

  lemma WithoutLater<T>(s: seq<T>, k: nat)
    requires k < |s|
    ensures Without(s, k) == if k == 0 then s[1..] else [s[0]] + Without(s[1..], k - 1)
  {}

  lemma MultisetWithout<T>(s: seq<T>, k: nat)
    requires k < |s|
    ensures multiset(s) == multiset(Without(s, k)) + multiset{s[k]}
  {
    assert s == s[..k] + [s[k]] + s[k + 1..];
  }

  /** If `b` is a rearrangement of a non-empty `a`, the first element of `a` can be taken out of both. */
  lemma MatchFirst<T>(a: seq<T>, b: seq<T>) returns (k: nat)
    requires a != [] && multiset(a) == multiset(b)
    ensures k < |b| && b[k] == a[0] && multiset(a[1..]) == multiset(Without(b, k))
  {
    assert a[0] in multiset(b);
    k :| 0 <= k < |b| && b[k] == a[0];
    MultisetWithout(b, k);
    assert a == [a[0]] + a[1..];
    assert multiset(a[1..]) == multiset(a) - multiset{a[0]} == multiset(Without(b, k));
  }

  /** Two arrangements of the same records have the same total length. */
  lemma {:induction false} PermutationLength(a: seq<Bytes>, b: seq<Bytes>)
    requires multiset(a) == multiset(b)
    ensures TotalLength(a) == TotalLength(b)
  {
    if a == [] {
      assert |multiset(b)| == 0;
    } else {
      var k := MatchFirst(a, b);
      PermutationLength(a[1..], Without(b, k));
      LengthWithout(b, k);
    }
  }

  lemma {:induction false} LengthWithout(b: seq<Bytes>, k: nat)
    requires k < |b|
    ensures TotalLength(b) == TotalLength(Without(b, k)) + |b[k]|
  {
    if k == 0 {
      assert Without(b, 0) == b[1..];
    } else {
      LengthWithout(b[1..], k - 1);
      assert Without(b, k)[1..] == Without(b[1..], k - 1);
    }
  }
}
