/** Shared vocabulary: optional values, calendar days, and the two JavaScript
    string operations the handlers rely on (`trim` and `split` on one character). */
module Common {

  datatype Option<T> = None | Some(value: T)

  /** A calendar day as a day number. Zero-padded YYYY-MM-DD strings compare
      lexicographically exactly as their day numbers compare numerically, so the
      page's string comparisons of dates become integer comparisons. */
  type Day = int

  /** The characters JavaScript's `String.prototype.trim` removes: white space
      (including the Unicode space separators) and line terminators. */
  predicate IsJsWhitespace(c: char)
  {
    c == '\t' || c == '\n' || c == '\U{000B}' || c == '\U{000C}' || c == '\r' || c == ' '
    || c == '\U{00A0}' || c == '\U{1680}' || ('\U{2000}' <= c <= '\U{200A}')
    || c == '\U{2028}' || c == '\U{2029}' || c == '\U{202F}' || c == '\U{205F}'
    || c == '\U{3000}' || c == '\U{FEFF}'
  }

  /** Drops leading white space: the result is a suffix of `s`, everything cut is
      white space, and the result does not start with white space. */
  function TrimStart(s: string): (r: string)
    ensures |r| <= |s| && r == s[|s| - |r|..]
    ensures forall k :: 0 <= k < |s| - |r| ==> IsJsWhitespace(s[k])
    ensures r != [] ==> !IsJsWhitespace(r[0])
  {
    if s != [] && IsJsWhitespace(s[0]) then TrimStart(s[1..]) else s
  }

  /** Drops trailing white space: the result is a prefix of `s`, everything cut is
      white space, and the result does not end with white space. */
  function TrimEnd(s: string): (r: string)
    ensures |r| <= |s| && r == s[..|r|]
    ensures forall k :: |r| <= k < |s| ==> IsJsWhitespace(s[k])
    ensures r != [] ==> !IsJsWhitespace(r[|r| - 1])
  {
    if s != [] && IsJsWhitespace(s[|s| - 1]) then TrimEnd(s[..|s| - 1]) else s
  }

  /** JavaScript `trim`. */
  function Trim(s: string): (r: string)
  {
    TrimEnd(TrimStart(s))
  }

  /** `Trim` keeps a contiguous part of its input, cuts only white space, and
      leaves no white space at either end. */
  lemma TrimSpec(s: string)
    ensures exists i, j :: 0 <= i <= j <= |s| && Trim(s) == s[i..j]
              && (forall k :: 0 <= k < i ==> IsJsWhitespace(s[k]))
              && (forall k :: j <= k < |s| ==> IsJsWhitespace(s[k]))
    ensures Trim(s) != [] ==> !IsJsWhitespace(Trim(s)[0]) && !IsJsWhitespace(Trim(s)[|Trim(s)| - 1])
  {
    TrimCutsOnlyWhitespace(s);
    TrimFirst(s);
  }

  /** The trimmed text is a slice of the input with only white space cut on
      either side. */
  lemma TrimCutsOnlyWhitespace(s: string)
    ensures exists i, j :: 0 <= i <= j <= |s| && Trim(s) == s[i..j]
              && (forall k :: 0 <= k < i ==> IsJsWhitespace(s[k]))
              && (forall k :: j <= k < |s| ==> IsJsWhitespace(s[k]))
  {
    var i := |s| - |TrimStart(s)|;
    var j := i + |Trim(s)|;
    TrimSlice(s);
    TrimCutsEnd(s);
  }

  /** The trimmed text sits in the input right after the leading white space. */
  lemma TrimSlice(s: string)
    ensures var i := |s| - |TrimStart(s)|;
            0 <= i <= i + |Trim(s)| <= |s| && Trim(s) == s[i..i + |Trim(s)|]
  {
    var t := TrimStart(s);
    var i := |s| - |t|;
    assert t == s[i..] && Trim(s) == t[..|Trim(s)|];
  }

  /** Everything after the trimmed text is white space. */
  lemma TrimCutsEnd(s: string)
    ensures forall k :: |s| - |TrimStart(s)| + |Trim(s)| <= k < |s| ==> IsJsWhitespace(s[k])
  {
    var t := TrimStart(s);
    var i := |s| - |t|;
    forall k | i + |Trim(s)| <= k < |s|
      ensures IsJsWhitespace(s[k])
    {
      assert s[k] == t[k - i];
    }
  }

  /** The trimmed text starts with the first character `TrimStart` kept. */
  lemma TrimFirst(s: string)
    ensures Trim(s) != [] ==> !IsJsWhitespace(Trim(s)[0])
  {
    var t := TrimStart(s);
    assert Trim(s) != [] ==> Trim(s)[0] == t[0];
  }

  /** Trimming is idempotent. */
  lemma TrimIdempotent(s: string)
    ensures Trim(Trim(s)) == Trim(s)
  {
    var t := Trim(s);
    TrimSpec(s);
    if t != [] {
      assert TrimStart(t) == t;
      assert TrimEnd(t) == t;
    }
  }

  /** A string consisting only of white space (in particular "") trims to "". */
  lemma TrimAllWhitespace(s: string)
    requires forall k :: 0 <= k < |s| ==> IsJsWhitespace(s[k])
    ensures Trim(s) == []
  {
    TrimSpec(s);
  }

  /** JavaScript `s.split(sep)` for a one-character separator: the pieces between
      consecutive occurrences of `sep`: always at least one piece, and a second
      piece exactly when `sep` occurs. */
  function Split(s: string, sep: char): (r: seq<string>)
    ensures |r| >= 1
    ensures |r| >= 2 <==> sep in s
    ensures forall p :: p in r ==> sep !in p
  {
    if s == [] then [""]
    else
      var rest := Split(s[1..], sep);
      if s[0] == sep then [""] + rest
      else [[s[0]] + rest[0]] + rest[1..]
  }

  /** JavaScript `pieces.join(sep)`. */
  function Join(pieces: seq<string>, sep: char): string
    requires |pieces| >= 1
  {
    if |pieces| == 1 then pieces[0]
    else pieces[0] + [sep] + Join(pieces[1..], sep)
  }

  /** Prepending a character to the first piece prepends it to the join. */
  lemma JoinConsFirst(pieces: seq<string>, c: char, sep: char)
    requires |pieces| >= 1
    ensures Join([[c] + pieces[0]] + pieces[1..], sep) == [c] + Join(pieces, sep)
  {
    var r := [[c] + pieces[0]] + pieces[1..];
    if |pieces| > 1 {
      assert r[1..] == pieces[1..];
    }
  }

  /** Joining the pieces back with the separator gives the original string. */
  lemma {:induction false} SplitJoin(s: string, sep: char)
    ensures Join(Split(s, sep), sep) == s
  {
    if s != [] {
      var rest := Split(s[1..], sep);
      SplitJoin(s[1..], sep);
      if s[0] == sep {
        assert ([""] + rest)[1..] == rest;
      } else {
        JoinConsFirst(rest, s[0], sep);
      }
      assert [s[0]] + s[1..] == s;
    }
  }

  /** A string without the separator splits into itself alone. */
  lemma {:induction false} SplitNoSeparator(s: string, sep: char)
    requires sep !in s
    ensures Split(s, sep) == [s]
  {
    if s != [] {
      SplitNoSeparator(s[1..], sep);
      assert [s[0]] + s[1..] == s;
    }
  }

  /** Splitting at the first separator: the part before it is the first piece,
      and the part after it is split the same way on its own. */
  lemma {:induction false} SplitAtFirst(q: string, sep: char, a: string)
    requires sep !in q
    ensures Split(q + [sep] + a, sep) == [q] + Split(a, sep)
  {
    if q == [] {
      assert q + [sep] + a == [sep] + a;
      assert ([sep] + a)[1..] == a;
    } else {
      var s := q + [sep] + a;
      assert s[0] == q[0] && s[1..] == q[1..] + [sep] + a;
      SplitAtFirst(q[1..], sep, a);
      var rest := Split(s[1..], sep);
      assert rest == [q[1..]] + Split(a, sep);
      assert rest[0] == q[1..] && rest[1..] == Split(a, sep);
      assert Split(s, sep) == [[q[0]] + rest[0]] + rest[1..];
      assert [q[0]] + q[1..] == q;
    }
  }
}
