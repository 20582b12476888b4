/** The string operations the script relies on, with Python's meaning:
    str.isspace, str.split(sep), str.split(), str.splitlines, str.strip,
    str.lower, str.replace and the decimal rendering of an int. */
module Text {
  import opened Wrappers

  /** Python's str.isspace on one character. */
  predicate IsSpace(c: char)
  {
    var n := c as int;
    || n == 0x20 || 0x09 <= n <= 0x0D || 0x1C <= n <= 0x1F || n == 0x85 || n == 0xA0
    || n == 0x1680 || 0x2000 <= n <= 0x200A || n == 0x2028 || n == 0x2029
    || n == 0x202F || n == 0x205F || n == 0x3000
  }

  /** The line boundaries of Python's str.splitlines. */
  predicate IsLineBreak(c: char)
  {
    var n := c as int;
    0x0A <= n <= 0x0D || 0x1C <= n <= 0x1E || n == 0x85 || n == 0x2028 || n == 0x2029
  }

  predicate NoneWhere(s: string, isSep: char -> bool)
  {
    forall i :: 0 <= i < |s| ==> !isSep(s[i])
  }

  predicate AllSpace(s: string)
  {
    forall i :: 0 <= i < |s| ==> IsSpace(s[i])
  }

  // ---------------------------------------------------------------- splitting

  /** Cuts s at every character isSep accepts, keeping empty fields. */
  function SplitWhere(s: string, isSep: char -> bool): (parts: seq<string>)
    ensures |parts| >= 1
    ensures forall i :: 0 <= i < |parts| ==> NoneWhere(parts[i], isSep)
  {
    if s == [] then [""]
    else
      var rest := SplitWhere(s[1..], isSep);
      if isSep(s[0]) then [""] + rest
      else [[s[0]] + rest[0]] + rest[1..]
  }

  /** Python's s.split(sep) for a one-character separator. */
  function Split(s: string, sep: char): seq<string>
  {
    SplitWhere(s, c => c == sep)
  }

  /** Python's sep.join(parts) for a one-character separator. */
  function Join(parts: seq<string>, sep: char): string
  {
    if |parts| == 0 then ""
    else if |parts| == 1 then parts[0]
    else parts[0] + [sep] + Join(parts[1..], sep)
  }

  /** The fields that remain after dropping the empty ones. */
  function NonEmpty(parts: seq<string>): (r: seq<string>)
    ensures forall i :: 0 <= i < |r| ==> r[i] != []
    ensures forall w :: w in r ==> w in parts
    ensures (forall i :: 0 <= i < |parts| ==> parts[i] != []) ==> r == parts
  {
    if parts == [] then []
    else if parts[0] == [] then NonEmpty(parts[1..])
    else [parts[0]] + NonEmpty(parts[1..])
  }

  /** Python's s.split() with no argument: the maximal runs of
      non-whitespace characters, in order. */
  function Words(s: string): (ws: seq<string>)
    ensures forall i :: 0 <= i < |ws| ==> ws[i] != [] && NoneWhere(ws[i], IsSpace)
  {
    var parts := SplitWhere(s, IsSpace);
    assert forall w :: w in parts ==> NoneWhere(w, IsSpace);
    NonEmpty(parts)
  }

  /** The lines of a text; this cuts at every line boundary, so a "\r\n"
      pair or a trailing boundary leaves an extra empty line that
      str.splitlines would not report. */
  function Lines(s: string): seq<string>
  {
    SplitWhere(s, IsLineBreak)
  }

  /** Putting back the separator between the fields gives back the text. */
  lemma {:induction false} JoinSplitWhere(s: string, isSep: char -> bool, sep: char)
    requires forall c :: isSep(c) <==> c == sep
    ensures Join(SplitWhere(s, isSep), sep) == s
  {
    if s != [] {
      var rest := SplitWhere(s[1..], isSep);
      JoinSplitWhere(s[1..], isSep, sep);
      if isSep(s[0]) {
        assert SplitWhere(s, isSep) == [""] + rest;
        assert ([""] + rest)[1..] == rest;
      } else if |rest| == 1 {
        assert SplitWhere(s, isSep) == [[s[0]] + rest[0]];
      } else {
        var parts := SplitWhere(s, isSep);
        assert parts == [[s[0]] + rest[0]] + rest[1..];
        assert parts[1..] == rest[1..];
        assert s == [s[0]] + s[1..];
      }
    }
  }

  /** Python's round trip: sep.join(s.split(sep)) == s. */
  lemma JoinSplit(s: string, sep: char)
    ensures Join(Split(s, sep), sep) == s
  {
    JoinSplitWhere(s, c => c == sep, sep);
  }

  /** A prefix without separators sticks to the first field. */
  lemma {:induction false} SplitWherePrefix(a: string, t: string, isSep: char -> bool)
    requires NoneWhere(a, isSep)
    ensures SplitWhere(a + t, isSep) == [a + SplitWhere(t, isSep)[0]] + SplitWhere(t, isSep)[1..]
  {
    if a == [] {
      assert a + t == t;
      var parts := SplitWhere(t, isSep);
      assert a + parts[0] == parts[0];
      assert parts == [parts[0]] + parts[1..];
    } else {
      assert (a + t)[1..] == a[1..] + t;
      SplitWherePrefix(a[1..], t, isSep);
      assert [a[0]] + (a[1..] + SplitWhere(t, isSep)[0]) == a + SplitWhere(t, isSep)[0];
    }
  }

  /** A field, a separator, and the rest: the field comes first. */
  lemma SplitWhereField(a: string, sep: char, t: string, isSep: char -> bool)
    requires NoneWhere(a, isSep) && isSep(sep)
    ensures SplitWhere(a + [sep] + t, isSep) == [a] + SplitWhere(t, isSep)
  {
    SplitWherePrefix(a, [sep] + t, isSep);
    assert a + [sep] + t == a + ([sep] + t);
    assert ([sep] + t)[1..] == t;
    assert SplitWhere([sep] + t, isSep) == [""] + SplitWhere(t, isSep);
    assert a + "" == a;
  }

  /** Cutting a joined list at the separator gives the list back, provided
      no field contains a separator. */
  lemma {:induction false} SplitWhereJoin(parts: seq<string>, sep: char, isSep: char -> bool)
    requires |parts| >= 1 && isSep(sep)
    requires forall i :: 0 <= i < |parts| ==> NoneWhere(parts[i], isSep)
    ensures SplitWhere(Join(parts, sep), isSep) == parts
  {
    if |parts| == 1 {
      SplitWherePrefix(parts[0], [], isSep);
      assert parts[0] + [] == parts[0];
    } else {
      SplitWhereJoin(parts[1..], sep, isSep);
      SplitWhereField(parts[0], sep, Join(parts[1..], sep), isSep);
      assert parts == [parts[0]] + parts[1..];
    }
  }

  /** Python's round trip: " ".join(ws).split() == ws for non-empty words
      without whitespace. */
  lemma WordsJoin(ws: seq<string>)
    requires forall i :: 0 <= i < |ws| ==> ws[i] != [] && NoneWhere(ws[i], IsSpace)
    ensures Words(Join(ws, ' ')) == ws
  {
    if ws == [] {
      assert SplitWhere("", IsSpace) == [""];
    } else {
      SplitWhereJoin(ws, ' ', IsSpace);
    }
  }

  /** A text with no separator is a single field. */
  lemma SplitWhereNone(s: string, isSep: char -> bool)
    requires NoneWhere(s, isSep)
    ensures SplitWhere(s, isSep) == [s]
  {
    SplitWherePrefix(s, [], isSep);
    assert s + [] == s;
  }

  // ---------------------------------------------------------------- strip

  /** Python's s.lstrip(). */
  function TrimLeft(s: string): (r: string)
    ensures |r| <= |s| && r == s[|s| - |r|..]
    ensures AllSpace(s[..|s| - |r|])
    ensures r != [] ==> !IsSpace(r[0])
  {
    if s != [] && IsSpace(s[0]) then
      var r := TrimLeft(s[1..]);
      assert s[..|s| - |r|] == [s[0]] + s[1..][..|s| - 1 - |r|];
      AllSpaceCons(s[0], s[1..][..|s| - 1 - |r|]);
      r
    else s
  }

  /** Python's s.rstrip(). */
  function TrimRight(s: string): (r: string)
    ensures |r| <= |s| && r == s[..|r|]
    ensures AllSpace(s[|r|..])
    ensures r != [] ==> !IsSpace(r[|r| - 1])
  {
    if s != [] && IsSpace(s[|s| - 1]) then
      var r := TrimRight(s[..|s| - 1]);
      assert s[|r|..] == s[..|s| - 1][|r|..] + [s[|s| - 1]];
      AllSpaceSnoc(s[..|s| - 1][|r|..], s[|s| - 1]);
      r
    else s
  }

  /** A whitespace character followed by whitespace is whitespace. */
  lemma AllSpaceCons(c: char, a: string)
    requires IsSpace(c) && AllSpace(a)
    ensures AllSpace([c] + a)
  {
    assert forall i :: 0 < i <= |a| ==> ([c] + a)[i] == a[i - 1];
  }

  /** Whitespace followed by a whitespace character is whitespace. */
  lemma AllSpaceSnoc(a: string, c: char)
    requires AllSpace(a) && IsSpace(c)
    ensures AllSpace(a + [c])
  {
    assert forall i :: 0 <= i < |a| ==> (a + [c])[i] == a[i];
  }

  /** Python's s.strip(). */
  function Strip(s: string): string
  {
    TrimRight(TrimLeft(s))
  }

  lemma {:induction false} TrimLeftSpaces(a: string, m: string)
    requires AllSpace(a) && (m == [] || !IsSpace(m[0]))
    ensures TrimLeft(a + m) == m
  {
    if a == [] {
      assert a + m == m;
    } else {
      assert (a + m)[1..] == a[1..] + m;
      TrimLeftSpaces(a[1..], m);
    }
  }

  lemma {:induction false} TrimRightSpaces(m: string, b: string)
    requires AllSpace(b) && (m == [] || !IsSpace(m[|m| - 1]))
    ensures TrimRight(m + b) == m
  {
    if b == [] {
      assert m + b == m;
    } else {
      var b' := b[..|b| - 1];
      assert (m + b)[..|m + b| - 1] == m + b';
      TrimRightSpaces(m, b');
    }
  }

  /** Strip removes exactly the surrounding whitespace: around a text that
      neither starts nor ends with whitespace, it gives back that text. */
  lemma StripSpaces(a: string, m: string, b: string)
    requires AllSpace(a) && AllSpace(b)
    requires m == [] || (!IsSpace(m[0]) && !IsSpace(m[|m| - 1]))
    ensures Strip(a + m + b) == m
  {
    if m == [] {
      assert a + m + b == a + b;
      TrimLeftSpaces(a + b, []);
      assert a + b + [] == a + b;
    } else {
      assert a + m + b == a + (m + b);
      TrimLeftSpaces(a, m + b);
      TrimRightSpaces(m, b);
    }
  }

  // ---------------------------------------------------------------- case

  /** Lower-casing of one character, for the ASCII letters. */
  function LowerChar(c: char): char
  {
    if 'A' <= c <= 'Z' then (c as int + 32) as char else c
  }

  /** Python's s.lower(), for the ASCII letters. */
  function Lower(s: string): string
  {
    seq(|s|, i requires 0 <= i < |s| => LowerChar(s[i]))
  }

  /** Text without upper-case ASCII letters is its own lower-casing. */
  lemma LowerNoUpper(s: string)
    requires forall i :: 0 <= i < |s| ==> !('A' <= s[i] <= 'Z')
    ensures Lower(s) == s
  {
  }

  lemma LowerIdempotent(s: string)
    ensures Lower(Lower(s)) == Lower(s)
  {
  }

  // ---------------------------------------------------------------- replace

  /** Python's s.replace(pat, rep): every occurrence, left to right,
      without overlaps. */
  function Replace(s: string, pat: string, rep: string): string
    requires pat != []
    decreases |s|
  {
    if |s| < |pat| then s
    else if s[..|pat|] == pat then rep + Replace(s[|pat|..], pat, rep)
    else [s[0]] + Replace(s[1..], pat, rep)
  }

  // ---------------------------------------------------------------- decimals

  predicate IsDigit(c: char)
  {
    '0' <= c <= '9'
  }

  predicate AllDigits(s: string)
  {
    forall i :: 0 <= i < |s| ==> IsDigit(s[i])
  }

  function Digit(d: nat): (c: char)
    requires d < 10
    ensures IsDigit(c) && c as int - '0' as int == d
  {
    ('0' as int + d) as char
  }

  /** The decimal digits of n, most significant first, without leading zeros. */
  function NatToString(n: nat): (s: string)
    ensures |s| >= 1 && AllDigits(s)
    ensures s[0] == '0' ==> n == 0 && |s| == 1
  {
    if n < 10 then [Digit(n)] else NatToString(n / 10) + [Digit(n % 10)]
  }

  /** Python's f"{i}" for an int: a minus sign, then the digits of |i|. */
  function IntToString(i: int): (s: string)
    ensures |s| >= 1
  {
    if i < 0 then "-" + NatToString(-i) else NatToString(i)
  }

  /** The value of a string of decimal digits. */
  function ParseNat(s: string): nat
    requires AllDigits(s)
  {
    if s == [] then 0 else ParseNat(s[..|s| - 1]) * 10 + (s[|s| - 1] as int - '0' as int)
  }

  /** Python's int(s) on an optionally negative decimal, or None. */
  function ParseInt(s: string): Option<int>
  {
    if |s| >= 2 && s[0] == '-' && AllDigits(s[1..]) then Some(-(ParseNat(s[1..]) as int))
    else if |s| >= 1 && AllDigits(s) then Some(ParseNat(s))
    else None
  }

  lemma {:induction false} ParseNatToString(n: nat)
    ensures ParseNat(NatToString(n)) == n
  {
    if n >= 10 {
      var s := NatToString(n);
      assert s[..|s| - 1] == NatToString(n / 10);
      ParseNatToString(n / 10);
    }
  }

  /** Rendering an int and reading it back gives the same int. */
  lemma ParseIntToString(i: int)
    ensures ParseInt(IntToString(i)) == Some(i)
  {
    if i < 0 {
      ParseNegative(-i);
    } else {
      ParseNonNegative(i);
    }
  }

  lemma ParseNegative(n: nat)
    ensures ParseInt("-" + NatToString(n)) == Some(-(n as int))
  {
    var s := "-" + NatToString(n);
    assert s[1..] == NatToString(n);
    ParseNatToString(n);
  }

  lemma ParseNonNegative(n: nat)
    ensures ParseInt(NatToString(n)) == Some(n)
  {
    var s := NatToString(n);
    assert s[0] != '-';
    ParseNatToString(n);
  }
}
