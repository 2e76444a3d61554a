/** Vocabulary shared by the model: optional values, Go string helpers and machine integers. */
module Base {
  datatype Option<+T> = None | Some(value: T)

  const MAX_INT32: int := 0x7FFF_FFFF
  const MAX_INT64: int := 0x7FFF_FFFF_FFFF_FFFF
  const MIN_INT64: int := -0x8000_0000_0000_0000

  /** Nanoseconds in a second. */
  const SECOND := 1_000_000_000

  /** How an API call ends: done, refused without effect, or done with its answer lost. */
  datatype Call = Done | Refused | Lost

  /** Two's-complement truncation to 32 and to 64 bits. */
  function Wrap32(x: int): (r: int)
    ensures -MAX_INT32 - 1 <= r <= MAX_INT32
    ensures -MAX_INT32 - 1 <= x <= MAX_INT32 ==> r == x
  {
    (x + MAX_INT32 + 1) % 0x1_0000_0000 - MAX_INT32 - 1
  }

  function Wrap64(x: int): (r: int)
    ensures MIN_INT64 <= r <= MAX_INT64
    ensures MIN_INT64 <= x <= MAX_INT64 ==> r == x
  {
    (x - MIN_INT64) % 0x1_0000_0000_0000_0000 + MIN_INT64
  }

  /** strings.IndexByte: the first position of `c`, or -1. */
  function IndexByte(s: string, c: char): (i: int)
    ensures -1 <= i < |s|
    ensures i == -1 <==> c !in s
    ensures i >= 0 ==> s[i] == c && c !in s[..i]
  {
    if s == [] then -1
    else if s[0] == c then 0
    else
      var i := IndexByte(s[1..], c);
      assert s == [s[0]] + s[1..];
      if i == -1 then -1 else assert s[..i + 1] == [s[0]] + s[1..][..i]; i + 1
  }

  /** strings.LastIndex of a one-character separator, or -1. */
  function LastIndexByte(s: string, c: char): (i: int)
    ensures -1 <= i < |s|
    ensures i == -1 <==> c !in s
    ensures i >= 0 ==> s[i] == c && c !in s[i + 1..]
  {
    if s == [] then -1
    else if s[|s| - 1] == c then |s| - 1
    else
      var t := s[..|s| - 1];
      var i := LastIndexByte(t, c);
      assert s == t + [s[|s| - 1]];
      if i == -1 then -1 else assert s[i + 1..] == t[i + 1..] + [s[|s| - 1]]; i
  }

  /** The last occurrence is the one nothing follows. */
  lemma {:induction false} LastIndexIs(s: string, c: char, k: nat)
    requires k < |s| && s[k] == c && c !in s[k + 1..]
    ensures LastIndexByte(s, c) == k
  {
    var i := LastIndexByte(s, c);
    assert forall j :: k < j < |s| ==> s[j] == s[k + 1..][j - k - 1];
    assert forall j :: i < j < |s| ==> s[j] == s[i + 1..][j - i - 1];
  }

  datatype Parts = Parts(before: string, after: string, found: bool)

  /** strings.Cut around the first occurrence of `sep`. */
  function Cut(s: string, sep: char): Parts {
    var i := IndexByte(s, sep);
    if i == -1 then Parts(s, "", false) else Parts(s[..i], s[i + 1..], true)
  }

  /** Cutting finds exactly the split whose left part is free of the separator. */
  lemma CutIsUnique(s: string, sep: char, before: string, after: string)
    ensures (s == before + [sep] + after && sep !in before) <==> Cut(s, sep) == Parts(before, after, true)
  {
    var i := IndexByte(s, sep);
    if s == before + [sep] + after && sep !in before {
      assert s[|before|] == sep;
      assert i <= |before|;
      assert forall k :: 0 <= k < |before| ==> s[k] == before[k];
      assert forall k :: 0 <= k < i ==> s[..i][k] != sep;
      assert s[..i] == before && s[i + 1..] == after;
    }
    if Cut(s, sep) == Parts(before, after, true) {
      assert s == s[..i] + [s[i]] + s[i + 1..];
    }
  }

  /** strings.HasPrefix */
  predicate HasPrefix(s: string, prefix: string) {
    prefix <= s
  }
}
