/** The path buffer that a directory walk shares among all levels of its stack. */
module PathBuffers {

  const PATH_MAX := 4096
  const NUL := '\0'

  predicate NoNul(s: string) {
    forall i :: 0 <= i < |s| ==> s[i] != NUL
  }

  /** What the buffer shows: a text that fills it loses its last character. */
  function Cut(text: string): string {
    if |text| < PATH_MAX then text else text[..PATH_MAX - 1]
  }

  /** The text before the first NUL is determined by the characters. */
  lemma FirstNul(chars: seq<char>, n: nat, text: string)
    requires n < |chars| && NoNul(chars[..n]) && chars[n] == NUL
    requires |text| < |chars| && NoNul(text) && chars[..|text|] == text && chars[|text|] == NUL
    ensures text == chars[..n]
  {
    NoNulBefore(chars, n);
    NoNulBefore(chars, |text|);
  }

  lemma NoNulBefore(chars: seq<char>, n: nat)
    requires n <= |chars| && NoNul(chars[..n])
    ensures forall k :: 0 <= k < n ==> chars[k] != NUL
  {
    forall k | 0 <= k < n ensures chars[k] != NUL {
      assert chars[k] == chars[..n][k];
    }
  }

  /** A name written after `text`, as far as there is room for it and a terminating zero. */
  lemma Appended(chars: seq<char>, text: string, name: string, n: nat)
    requires |chars| == PATH_MAX + 1 && |text| < PATH_MAX && chars[..|text|] == text
    requires n == (if |text| + |name| < PATH_MAX then |name| else PATH_MAX - 1 - |text|)
    requires chars[|text|..|text| + n] == name[..n] && chars[|text| + n] == NUL
    ensures chars[..|Cut(text + name)|] == Cut(text + name) && chars[|Cut(text + name)|] == NUL
  {
    assert Cut(text + name) == text + name[..n];
    assert chars[..|text| + n] == chars[..|text|] + chars[|text|..|text| + n];
  }

  class PathBuffer {
    const data: array<char>
    var length: nat

    ghost predicate Valid()
      reads this, data
    {
      data.Length == PATH_MAX + 1 && length <= PATH_MAX && data[PATH_MAX] == NUL
    }

    /** `text` is the C string at the start of the buffer. */
    ghost predicate Reads(text: string)
      reads this, data
    {
      Valid() && |text| <= PATH_MAX && NoNul(text) && data[..|text|] == text && data[|text|] == NUL
    }

    /** The buffer still has what it shows of `text`, whatever follows. */
    ghost predicate Keeps(text: string)
      reads this, data
    {
      && Valid() && |text| <= PATH_MAX && NoNul(text) && data[..|Cut(text)|] == Cut(text)
      && (|text| == PATH_MAX ==> data[PATH_MAX - 1] == NUL)
    }

    /** The buffer has `text`, and shows all of it that it can. */
    ghost predicate Holds(text: string)
      reads this, data
    {
      Keeps(text) && |text| == length && data[|Cut(text)|] == NUL
    }

    lemma KeepsPrefix(text: string, more: string)
      requires text < more && Keeps(more)
      ensures Keeps(text)
    {
      var t := Cut(more);
      assert text == t[..|text|] && t == data[..|t|];
      assert forall i :: 0 <= i < |text| ==> text[i] == more[i];
    }

    lemma HeldIsRead(text: string)
      requires Holds(text)
      ensures Reads(Cut(text))
    {}

    constructor ()
      ensures Holds("") && fresh(data)
    {
      data := new char[PATH_MAX + 1](_ => NUL);
      length := 0;
    }

    /** The C string at the start of the buffer. */
    method AsString() returns (s: string)
      requires Valid()
      ensures s <= data[..] && |s| <= PATH_MAX && data[|s|] == NUL && NoNul(s)
      ensures forall text :: Reads(text) ==> s == text
    {
      var n := 0;
      while data[n] != NUL
        invariant 0 <= n <= PATH_MAX && NoNul(data[..n])
        decreases PATH_MAX - n
      {
        n := n + 1;
      }
      s := data[..n];
      forall text | Reads(text) ensures s == text {
        FirstNul(data[..], n, text);
      }
    }

    /**
     snprintf writes as much of the name as fits before a terminating zero and returns the length
     of the whole name. Appending succeeds up to and including the case where one character more
     would have been needed for the zero.
     */
    method Add(name: string) returns (ok: bool)
      requires Valid() && NoNul(name)
      modifies this, data
      ensures Valid() && ok == (|name| <= PATH_MAX - old(length))
      ensures length == old(length) + (if ok then |name| else 0)
      ensures data[..old(length)] == old(data[..length])
      ensures forall text :: old(Holds(text)) ==> Keeps(text) && Reads(Cut(text + name))
      ensures forall text :: old(Holds(text)) && ok ==> Holds(text + name)
    {
      var size := PATH_MAX - length;
      if size > 0 {
        var n := if |name| < size then |name| else size - 1;
        forall i | 0 <= i < n {
          data[length + i] := name[i];
        }
        data[length + n] := NUL;
      }
      data[PATH_MAX] := NUL;
      ok := |name| <= size;
      if ok {
        length := length + |name|;
      }
      forall text | old(Holds(text)) ensures Keeps(text) && Reads(Cut(text + name)) && (ok ==> Holds(text + name)) {
        if size > 0 {
          Appended(data[..], text, name, if |name| < size then |name| else size - 1);
        } else {
          assert Cut(text + name) == Cut(text);
        }
      }
    }

    method Reset(newLength: nat)
      requires Valid() && newLength <= PATH_MAX
      modifies this, data
      ensures Valid() && length == newLength && data[..newLength] == old(data[..newLength])
      ensures forall text :: old(Keeps(text)) && |text| == newLength ==> Holds(text)
    {
      length := newLength;
      data[length] := NUL;
    }
  }

  /**
   Add reports success although the text was cut exactly when the name ends where the buffer does.
   */
  method AddKeepsWholeName(text: string, name: string) returns (ok: bool, whole: bool)
    requires NoNul(text) && NoNul(name) && |text| < PATH_MAX
    ensures ok ==> (whole <==> |text| + |name| != PATH_MAX)
    ensures !ok <==> |text| + |name| > PATH_MAX
  {
    var buffer := new PathBuffer();
    ok := buffer.Add(text);
    assert "" + text == text;
    ok := buffer.Add(name);
    var s := buffer.AsString();
    whole := s == text + name;
    NoNulBefore(buffer.data[..], |s|);
    if |text| + |name| < PATH_MAX {
      assert buffer.Holds(text + name);
    } else if |text| + |name| == PATH_MAX {
      assert buffer.data[..][PATH_MAX - 1] == NUL;
      assert |s| != |text + name|;
    }
  }
}
