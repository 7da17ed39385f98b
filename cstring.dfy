/** NUL-terminated character buffers, as the C library sees them. */
module CString {

  /** The terminator of a C string. */
  const NUL: char := '\0'

  /** No character of `s` is the terminator: `s` can be the text of a C string. */
  predicate NoNul(s: seq<char>) {
    forall i :: 0 <= i < |s| ==> s[i] != NUL
  }

  /** The buffer holds a terminator somewhere, so `strlen` stops inside it. */
  predicate Terminated(s: seq<char>) {
    exists i :: 0 <= i < |s| && s[i] == NUL
  }

  /** What `strlen` returns: the index of the first terminator. */
  function Len(s: seq<char>): (n: nat)
    requires Terminated(s)
    ensures n < |s| && s[n] == NUL
    ensures NoNul(s[..n])
  {
    if s[0] == NUL then 0
    else
      assert Terminated(s[1..]) by {
        var i :| 0 <= i < |s| && s[i] == NUL;
        assert s[1..][i - 1] == NUL;
      }
      assert s[..Len(s[1..]) + 1] == [s[0]] + s[1..][..Len(s[1..])];
      Len(s[1..]) + 1
  }

  /** The string a `char*` pointing at the start of the buffer denotes. */
  function Str(s: seq<char>): seq<char>
    requires Terminated(s)
  {
    s[..Len(s)]
  }

  /** The first terminator is unique: any terminator with none before it is where `strlen` stops. */
  lemma {:induction false} LenIsFirstNul(s: seq<char>, k: nat)
    requires k < |s| && s[k] == NUL && NoNul(s[..k])
    ensures Terminated(s) && Len(s) == k
  {
    assert Terminated(s);
  }

  /** `strlen`: scans the buffer up to its first terminator. */
  method StrLen(a: array<char>) returns (n: nat)
    requires Terminated(a[..])
    ensures n < a.Length && a[n] == NUL
    ensures forall i :: 0 <= i < n ==> a[i] != NUL
    ensures n == Len(a[..])
  {
    ghost var len := Len(a[..]);
    n := 0;
    while a[n] != NUL
      invariant n <= len
      invariant forall i :: 0 <= i < n ==> a[i] != NUL
      decreases len - n
    {
      assert a[..][..len][n] == a[n];
      n := n + 1;
    }
    assert a[..][n] == NUL;
    assert a[..][..n] == a[..n];
    LenIsFirstNul(a[..], n);
  }
}
