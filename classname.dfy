/**
 * `fix_class_name`: turns a class signature such as `Lcom/example/Foo;`
 * into the name printed in a trace line, in the caller's own buffer.
 */
module ClassName {
  import opened CString

  /**
   * The name `fix_class_name` leaves: the signature without its first and
   * last character. Nothing is checked: an array or primitive signature is
   * trimmed the same way.
   */
  function Fixed(signature: seq<char>): (name: seq<char>)
    requires |signature| >= 1
    ensures |name| == if |signature| == 1 then 0 else |signature| - 2
    ensures forall i :: 0 <= i < |name| ==> name[i] == signature[i + 1]
  {
    if |signature| == 1 then [] else signature[1..|signature| - 1]
  }

  /** A reference-type signature `L<name>;` yields exactly `<name>`. */
  lemma FixedReference(name: seq<char>)
    ensures Fixed(['L'] + name + [';']) == name
  {
  }

  /** Any first and last characters are dropped alike: the `L` is never checked. */
  lemma {:induction false} FixedIgnoresMarkers(first: char, name: seq<char>, last: char)
    ensures Fixed([first] + name + [last]) == name
  {
    assert ([first] + name + [last])[1..|name| + 1] == name;
  }

  /** An array signature keeps its `L` and loses its `[`: `[Ljava/lang/String;` gives `Ljava/lang/String`. */
  lemma ArraySignature()
    ensures Fixed("[Ljava/lang/String;") == "Ljava/lang/String"
  {
  }

  /** The buffer after the terminator write: the last character of the string becomes NUL. */
  function Terminate(buffer: seq<char>): (r: seq<char>)
    requires Terminated(buffer) && Len(buffer) >= 1
  {
    buffer[Len(buffer) - 1 := NUL]
  }

  /**
   * Read from one past its start, the rewritten buffer holds the fixed name:
   * the returned pointer denotes `Fixed` of the original string.
   */
  lemma {:induction false} TerminateThenSkip(buffer: seq<char>)
    requires Terminated(buffer) && Len(buffer) >= 1
    ensures Terminated(Terminate(buffer)[1..])
    ensures Str(Terminate(buffer)[1..]) == Fixed(Str(buffer))
  {
    var n := Len(buffer);
    var t := Terminate(buffer)[1..];
    var k := if n == 1 then 0 else n - 2;
    assert t[k] == NUL;
    assert NoNul(t[..k]) by {
      forall i | 0 <= i < k ensures t[..k][i] != NUL {
        assert buffer[..n][i + 1] == buffer[i + 1];
      }
    }
    LenIsFirstNul(t, k);
    assert t[..k] == Fixed(Str(buffer));
  }

  /**
   * `fix_class_name`: writes NUL over the last character of the string in
   * `buffer` and returns the offset (one) of the name that remains. It
   * requires a non-empty string, as it indexes `strlen - 1`.
   */
  method FixClassName(buffer: array<char>) returns (offset: nat)
    requires Terminated(buffer[..]) && Len(buffer[..]) >= 1
    modifies buffer
    ensures buffer[..] == Terminate(old(buffer[..]))
    ensures forall i :: 0 <= i < buffer.Length && i != old(Len(buffer[..])) - 1 ==> buffer[i] == old(buffer[i])
    ensures offset == 1 && offset < buffer.Length
    ensures Terminated(buffer[offset..]) && Str(buffer[offset..]) == Fixed(old(Str(buffer[..])))
  {
    var n := StrLen(buffer);
    buffer[n - 1] := NUL;
    offset := 1;
    TerminateThenSkip(old(buffer[..]));
    assert buffer[offset..] == Terminate(old(buffer[..]))[1..];
  }
}
