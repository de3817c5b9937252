/**
 * The few Python string operations the core relies on: `str.strip()` emptiness,
 * `sep.join(...)`, `str.split(sep)` and the texts of the exceptions involved.
 */
module PyStr {

  /** `c.isspace()` for one code point (the characters `str.strip()` removes). */
  predicate IsSpace(c: char) {
    var n := c as int;
    (9 <= n <= 13) || (28 <= n <= 32) || n == 133 || n == 160 || n == 5760
    || (8192 <= n <= 8202) || n == 8232 || n == 8233 || n == 8239 || n == 8287 || n == 12288
  }

  /** `not s.strip()`: the text is empty or whitespace only. */
  predicate IsBlank(s: string) {
    forall j :: 0 <= j < |s| ==> IsSpace(s[j])
  }

  /** `s.lstrip()`: drop leading whitespace. */
  function LStrip(s: string): string {
    if s != [] && IsSpace(s[0]) then LStrip(s[1..]) else s
  }

  /** `s.rstrip()`: drop trailing whitespace. */
  function RStrip(s: string): string {
    if s != [] && IsSpace(s[|s| - 1]) then RStrip(s[..|s| - 1]) else s
  }

  /** `s.strip()` */
  function Strip(s: string): string {
    RStrip(LStrip(s))
  }

  /** `not s.strip()` holds exactly when the text is blank. */
  lemma StripBlank(s: string)
    ensures Strip(s) == [] <==> IsBlank(s)
  {
    LStripBlank(s);
    var t := LStrip(s);
    if t != [] {
      RStripKeepsHead(t);
    }
  }

  lemma {:induction false} LStripBlank(s: string)
    ensures LStrip(s) == [] <==> IsBlank(s)
    ensures LStrip(s) != [] ==> !IsSpace(LStrip(s)[0])
  {
    if s != [] && IsSpace(s[0]) {
      LStripBlank(s[1..]);
      assert forall j :: 0 < j < |s| ==> s[j] == s[1..][j - 1];
    }
  }

  lemma {:induction false} RStripKeepsHead(t: string)
    requires t != [] && !IsSpace(t[0])
    ensures RStrip(t) != []
  {
    if IsSpace(t[|t| - 1]) {
      RStripKeepsHead(t[..|t| - 1]);
    }
  }

  /** `sep.join(parts)` */
  function Join(sep: string, parts: seq<string>): (r: string)
    ensures |parts| == 1 ==> r == parts[0]
  {
    if parts == [] then ""
    else if |parts| == 1 then parts[0]
    else parts[0] + sep + Join(sep, parts[1..])
  }

  /** The characters of a string as one-character strings (iterating a `str`). */
  function Chars(s: string): (r: seq<string>)
    ensures |r| == |s| && forall j :: 0 <= j < |s| ==> r[j] == [s[j]]
  {
    seq(|s|, j requires 0 <= j < |s| => [s[j]])
  }

  function DigitChar(d: nat): char
    requires d < 10
  {
    "0123456789"[d]
  }

  /** `str(n)` for a natural number. */
  function NatToString(n: nat): (r: string)
    ensures |r| > 0
  {
    if n < 10 then [DigitChar(n)] else NatToString(n / 10) + [DigitChar(n % 10)]
  }

  /** `repr(s)` for a string without quotes or escapes to render. */
  function Quote(s: string): string {
    "'" + s + "'"
  }

  /** `s.split(sep)`: the pieces between occurrences of sep, always at least one. */
  function Split(s: string, sep: char): (r: seq<string>)
    ensures |r| >= 1
    ensures |r| == 1 <==> sep !in s
    ensures sep !in s ==> r == [s]
  {
    if s == [] then [""]
    else
      var rest := Split(s[1..], sep);
      assert s == [s[0]] + s[1..];
      if s[0] == sep then [""] + rest else [[s[0]] + rest[0]] + rest[1..]
  }

  /** Joining the pieces of a split with the separator gives the string back. */
  lemma {:induction false} SplitJoin(s: string, sep: char)
    ensures Join([sep], Split(s, sep)) == s
  {
    if s != [] {
      var rest := Split(s[1..], sep);
      SplitJoin(s[1..], sep);
      if s[0] == sep {
        assert Split(s, sep) == [""] + rest;
        assert Join([sep], [""] + rest) == "" + [sep] + Join([sep], rest);
      } else {
        JoinHead(rest, [s[0]], [sep]);
      }
    }
  }

  lemma {:induction false} JoinHead(parts: seq<string>, pre: string, sep: string)
    requires |parts| >= 1
    ensures Join(sep, [pre + parts[0]] + parts[1..]) == pre + Join(sep, parts)
  {
    var q := [pre + parts[0]] + parts[1..];
    if |parts| == 1 {
      assert q == [pre + parts[0]];
    } else {
      assert q[1..] == parts[1..];
    }
  }

  /** No piece of a split contains the separator. */
  lemma {:induction false} SplitPieces(s: string, sep: char)
    ensures forall p :: p in Split(s, sep) ==> sep !in p
  {
    if s != [] {
      SplitPieces(s[1..], sep);
      var rest := Split(s[1..], sep);
      if s[0] != sep {
        assert sep !in rest[0];
        forall p | p in [[s[0]] + rest[0]] + rest[1..] ensures sep !in p {
          if p != [s[0]] + rest[0] { assert p in rest; }
        }
      }
    }
  }

  /** `s.split(sep)[-1]` */
  function LastPiece(s: string, sep: char): string {
    var pieces := Split(s, sep);
    pieces[|pieces| - 1]
  }

  /** The last piece is a separator-free suffix of the string. */
  lemma {:induction false} LastPieceSuffix(s: string, sep: char)
    ensures var t := LastPiece(s, sep);
      sep !in t && |t| <= |s| && s[|s| - |t|..] == t
  {
    if s != [] {
      var rest := Split(s[1..], sep);
      LastPieceSuffix(s[1..], sep);
      var u := LastPiece(s[1..], sep);
      if s[0] == sep {
        assert Split(s, sep) == [""] + rest;
      } else if |rest| > 1 {
        assert Split(s, sep) == [[s[0]] + rest[0]] + rest[1..];
      } else {
        assert Split(s, sep) == [[s[0]] + s[1..]];
        assert [s[0]] + s[1..] == s;
        return;
      }
      assert LastPiece(s, sep) == u;
      assert s[|s| - |u|..] == s[1..][|s| - 1 - |u|..];
    }
  }

  /**
   * The last piece is the text after the last separator, or the whole string
   * when there is no separator.
   */
  lemma {:induction false} LastPieceIsTail(s: string, sep: char)
    ensures var t := LastPiece(s, sep);
      && sep !in t
      && |t| <= |s| && s[|s| - |t|..] == t
      && (sep in s <==> |t| < |s|)
      && (|t| < |s| ==> s[|s| - |t| - 1] == sep)
  {
    LastPieceSuffix(s, sep);
    if s != [] {
      LastPieceIsTail(s[1..], sep);
      var rest := Split(s[1..], sep);
      var t := LastPiece(s, sep);
      if s[0] == sep || |rest| > 1 {
        assert t == LastPiece(s[1..], sep);
        if |t| == |s| - 1 {
          assert s[0] == sep;
        } else if |t| < |s| - 1 {
          assert s[|s| - |t| - 1] == s[1..][|s| - 1 - |t| - 1];
        }
      } else {
        assert rest == [s[1..]];
      }
    }
  }

  /** A separator followed by a separator-free tail: the tail is the last piece. */
  lemma LastPieceAfter(prefix: string, sep: char, tail: string)
    requires sep !in tail
    ensures LastPiece(prefix + [sep] + tail, sep) == tail
  {
    var s := prefix + [sep] + tail;
    LastPieceIsTail(s, sep);
    var t := LastPiece(s, sep);
    assert s[|prefix|] == sep;
    assert s[|s| - |tail|..] == tail;
  }
}
