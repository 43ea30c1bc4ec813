/** The Python string operations the backend relies on, stated over `seq<char>`:
    `str.strip`/`lstrip`/`rstrip`, `str.split`, `str.join`, `str.startswith`,
    substring search, case-insensitive containment with ASCII case folding, `str(n)` for a
    natural number and `int(s)` for a string. */
module Text {
  import opened Common

  // ---------------------------------------------------------------------------
  // Whitespace and stripping
  // ---------------------------------------------------------------------------

  /** Python's `str.isspace` for one character. */
  predicate IsSpace(c: char) {
    if c <= ' ' then '\t' <= c <= '\r' || '\U{1C}' <= c
    else if c < '\U{1680}' then c == '\U{85}' || c == '\U{A0}'
    else c == '\U{1680}' || ('\U{2000}' <= c <= '\U{200A}') || c == '\U{2028}' || c == '\U{2029}'
         || c == '\U{202F}' || c == '\U{205F}' || c == '\U{3000}'
  }

  /** `s.lstrip()`: the suffix left after dropping the leading whitespace. */
  function LStrip(s: string): (r: string)
    ensures |r| <= |s| && r == s[|s| - |r|..]
    ensures r == [] || !IsSpace(r[0])
    decreases |s|
  {
    if |s| > 0 && IsSpace(s[0]) then LStrip(s[1..]) else s
  }

  /** `s.rstrip()`: the prefix left after dropping the trailing whitespace. */
  function RStrip(s: string): (r: string)
    ensures |r| <= |s| && r == s[..|r|]
    ensures r == [] || !IsSpace(r[|r| - 1])
    decreases |s|
  {
    if |s| > 0 && IsSpace(s[|s| - 1]) then RStrip(s[..|s| - 1]) else s
  }

  /** `s.strip()`: no longer than `s`, with no whitespace at either end. */
  function Strip(s: string): (r: string)
    ensures |r| <= |s|
    ensures r == [] || (!IsSpace(r[0]) && !IsSpace(r[|r| - 1]))
  {
    RStrip(LStrip(s))
  }

  /** `lstrip` drops only whitespace. */
  lemma {:induction false} LStripDropsOnlySpace(s: string, i: int)
    requires 0 <= i < |s| - |LStrip(s)|
    ensures IsSpace(s[i])
    decreases |s|
  {
    if i > 0 {
      LStripDropsOnlySpace(s[1..], i - 1);
    }
  }

  /** `rstrip` drops only whitespace. */
  lemma {:induction false} RStripDropsOnlySpace(s: string, i: int)
    requires |RStrip(s)| <= i < |s|
    ensures IsSpace(s[i])
    decreases |s|
  {
    if i < |s| - 1 {
      RStripDropsOnlySpace(s[..|s| - 1], i);
    }
  }

  /** Where the strip of `s` starts and ends in `s`. */
  function StripStart(s: string): nat {
    |s| - |LStrip(s)|
  }

  function StripEnd(s: string): nat {
    StripStart(s) + |RStrip(LStrip(s))|
  }

  /** `strip` keeps the middle of `s`: it drops only whitespace, from both ends. */
  lemma StripMiddle(s: string)
    ensures StripStart(s) <= StripEnd(s) <= |s|
    ensures Strip(s) == s[StripStart(s)..StripEnd(s)]
    ensures forall k :: 0 <= k < StripStart(s) ==> IsSpace(s[k])
    ensures forall k :: StripEnd(s) <= k < |s| ==> IsSpace(s[k])
  {
    StripSlice(s);
    StripDropsSpace(s);
  }

  /** The strip is the slice of `s` that starts where `lstrip` starts. */
  lemma StripSlice(s: string)
    ensures StripEnd(s) <= |s|
    ensures Strip(s) == s[StripStart(s)..StripEnd(s)]
  {
    var l := LStrip(s);
    var r := RStrip(l);
    var d := |s| - |l|;
    assert l == s[d..];
    assert r == l[..|r|];
    assert s[d..d + |r|] == l[..|r|];
  }

  /** What `strip` drops, on either side, is whitespace. */
  lemma StripDropsSpace(s: string)
    ensures forall k :: 0 <= k < StripStart(s) ==> IsSpace(s[k])
    ensures forall k :: StripEnd(s) <= k < |s| ==> IsSpace(s[k])
  {
    var l := LStrip(s);
    var d := |s| - |l|;
    forall k | 0 <= k < d
      ensures IsSpace(s[k])
    {
      LStripDropsOnlySpace(s, k);
    }
    forall k | d + |RStrip(l)| <= k < |s|
      ensures IsSpace(s[k])
    {
      RStripDropsOnlySpace(l, k - d);
      assert l[k - d] == s[k];
    }
  }

  /** A string that neither starts nor ends with whitespace is its own strip. */
  lemma StripKeeps(s: string)
    requires s == [] || (!IsSpace(s[0]) && !IsSpace(s[|s| - 1]))
    ensures Strip(s) == s
  {
    assert LStrip(s) == s;
  }

  /** Stripping twice changes nothing more. */
  lemma StripIdempotent(s: string)
    ensures Strip(Strip(s)) == Strip(s)
  {
    var l := LStrip(s);
    var r := RStrip(l);
    if r != [] {
      assert r[0] == l[0];
    }
    StripKeeps(r);
  }

  /** `s.lstrip(c)` for a single character `c`. */
  function LStripChar(s: string, c: char): (r: string)
    ensures |r| <= |s| && r == s[|s| - |r|..]
    ensures r == [] || r[0] != c
    ensures forall i :: 0 <= i < |s| - |r| ==> s[i] == c
  {
    if |s| > 0 && s[0] == c then LStripChar(s[1..], c) else s
  }

  /** `s.rstrip(c)` for a single character `c`. */
  function RStripChar(s: string, c: char): (r: string)
    ensures |r| <= |s| && r == s[..|r|]
    ensures r == [] || r[|r| - 1] != c
    ensures forall i :: |r| <= i < |s| ==> s[i] == c
  {
    if |s| > 0 && s[|s| - 1] == c then RStripChar(s[..|s| - 1], c) else s
  }

  // ---------------------------------------------------------------------------
  // Prefixes and substrings
  // ---------------------------------------------------------------------------

  /** `s.startswith(p)` */
  predicate StartsWith(s: string, p: string) {
    |p| <= |s| && s[..|p|] == p
  }

  /** `t in s` for strings (SQL `LIKE '%t%'`). */
  predicate Contains(s: string, t: string)
    decreases |s|
  {
    StartsWith(s, t) || (|s| > 0 && Contains(s[1..], t))
  }

  /** `t` occurs in `s` at position `i`. */
  predicate OccursAt(s: string, t: string, i: int) {
    0 <= i <= |s| - |t| && s[i..i + |t|] == t
  }

  /** `Contains` holds exactly when `t` occurs at some position of `s`. */
  lemma {:induction false} ContainsAt(s: string, t: string)
    ensures Contains(s, t) <==> exists i :: OccursAt(s, t, i)
    decreases |s|
  {
    if StartsWith(s, t) {
      assert OccursAt(s, t, 0);
    } else if |s| > 0 {
      ContainsAt(s[1..], t);
      if exists i :: OccursAt(s, t, i) {
        var i :| OccursAt(s, t, i);
        assert i != 0;
        assert s[1..][i - 1..i - 1 + |t|] == s[i..i + |t|];
        assert OccursAt(s[1..], t, i - 1);
      }
      if Contains(s[1..], t) {
        var j :| OccursAt(s[1..], t, j);
        assert s[j + 1..j + 1 + |t|] == s[1..][j..j + |t|];
        assert OccursAt(s, t, j + 1);
      }
    } else {
      assert forall i :: !OccursAt(s, t, i);
    }
  }

  /** ASCII lower-casing of one character. */
  function LowerChar(c: char): char {
    if 'A' <= c <= 'Z' then (c as int + 32) as char else c
  }

  /** ASCII lower-casing of a string. */
  function Lower(s: string): (r: string)
    ensures |r| == |s|
    ensures forall i :: 0 <= i < |s| ==> r[i] == LowerChar(s[i])
  {
    if s == [] then [] else [LowerChar(s[0])] + Lower(s[1..])
  }

  /** `field__icontains=t`: case-insensitive substring test. */
  predicate IContains(s: string, t: string) {
    Contains(Lower(s), Lower(t))
  }

  // ---------------------------------------------------------------------------
  // split / join
  // ---------------------------------------------------------------------------

  /** `s.split(sep)` for a one-character separator: never empty, pieces free of `sep`. */
  function Split(s: string, sep: char): (r: seq<string>)
    ensures |r| >= 1
    ensures forall k :: 0 <= k < |r| ==> sep !in r[k]
    decreases |s|
  {
    if |s| == 0 then [""]
    else if s[0] == sep then [""] + Split(s[1..], sep)
    else
      var rest := Split(s[1..], sep);
      [[s[0]] + rest[0]] + rest[1..]
  }

  /** `sep.join(xs)`: the first piece, then each further piece after a separator. */
  function Join(xs: seq<string>, sep: char): (r: string)
    ensures |xs| > 0 ==> |xs[0]| <= |r| && r[..|xs[0]|] == xs[0]
    ensures |xs| > 1 ==> |xs[0]| < |r| && r[|xs[0]|] == sep
    decreases |xs|
  {
    if |xs| == 0 then ""
    else if |xs| == 1 then xs[0]
    else xs[0] + [sep] + Join(xs[1..], sep)
  }

  /** A string without the separator splits into itself alone. */
  lemma {:induction false} SplitWithoutSep(t: string, sep: char)
    requires sep !in t
    ensures Split(t, sep) == [t]
    decreases |t|
  {
    if |t| > 0 {
      SplitWithoutSep(t[1..], sep);
      assert [t[0]] + t[1..] == t;
    }
  }

  /** Splitting `t + sep + u` with `t` free of `sep` yields `t` then the pieces of `u`. */
  lemma {:induction false} SplitAtFirstSep(t: string, u: string, sep: char)
    requires sep !in t
    ensures Split(t + [sep] + u, sep) == [t] + Split(u, sep)
    decreases |t|
  {
    var s := t + [sep] + u;
    if |t| == 0 {
      assert s[1..] == u;
    } else {
      assert s[1..] == t[1..] + [sep] + u;
      SplitAtFirstSep(t[1..], u, sep);
      assert [t[0]] + t[1..] == t;
    }
  }

  /** `split` undoes `join` when no piece holds the separator. */
  lemma {:induction false} SplitJoin(xs: seq<string>, sep: char)
    requires |xs| >= 1
    requires forall k :: 0 <= k < |xs| ==> sep !in xs[k]
    ensures Split(Join(xs, sep), sep) == xs
    decreases |xs|
  {
    if |xs| == 1 {
      SplitWithoutSep(xs[0], sep);
    } else {
      SplitJoin(xs[1..], sep);
      SplitAtFirstSep(xs[0], Join(xs[1..], sep), sep);
      assert [xs[0]] + xs[1..] == xs;
    }
  }

  /** `join` undoes `split` for every string. */
  lemma {:induction false} JoinSplit(s: string, sep: char)
    ensures Join(Split(s, sep), sep) == s
    decreases |s|
  {
    if |s| > 0 {
      JoinSplit(s[1..], sep);
      var rest := Split(s[1..], sep);
      if s[0] == sep {
        assert Split(s, sep) == [""] + rest;
        assert ([""] + rest)[1..] == rest;
        assert [sep] + s[1..] == s;
      } else {
        var r := [[s[0]] + rest[0]] + rest[1..];
        if |rest| == 1 {
          assert [s[0]] + s[1..] == s;
        } else {
          assert r[1..] == rest[1..];
          assert Join(r, sep) == [s[0]] + Join(rest, sep);
          assert [s[0]] + s[1..] == s;
        }
      }
    }
  }

  /** The first piece of `s.split(sep)` is everything before the first `sep`. */
  lemma FirstPieceBeforeSep(t: string, u: string, sep: char)
    requires sep !in t
    ensures Split(t + [sep] + u, sep)[0] == t
    ensures Split(t, sep)[0] == t
  {
    SplitAtFirstSep(t, u, sep);
    SplitWithoutSep(t, sep);
  }

  // ---------------------------------------------------------------------------
  // Numbers: str(n) and int(s)
  // ---------------------------------------------------------------------------

  predicate IsDigit(c: char) {
    '0' <= c <= '9'
  }

  /** Python's `s.isdigit()` restricted to ASCII digits. */
  predicate IsDigits(s: string) {
    |s| > 0 && forall i :: 0 <= i < |s| ==> IsDigit(s[i])
  }

  function DigitChar(d: nat): char
    requires d < 10
  {
    ('0' as int + d) as char
  }

  function DigitValue(c: char): nat
    requires IsDigit(c)
  {
    c as int - '0' as int
  }

  /** The number a string of decimal digits denotes. */
  function DigitsValue(ds: string): nat
    requires forall i :: 0 <= i < |ds| ==> IsDigit(ds[i])
    decreases |ds|
  {
    if |ds| == 0 then 0 else DigitsValue(ds[..|ds| - 1]) * 10 + DigitValue(ds[|ds| - 1])
  }

  /** `str(n)` for a natural number. */
  function NatToString(n: nat): (r: string)
    ensures |r| >= 1
    ensures forall i :: 0 <= i < |r| ==> IsDigit(r[i])
    decreases n
  {
    if n < 10 then [DigitChar(n)] else NatToString(n / 10) + [DigitChar(n % 10)]
  }

  /** Reading back `str(n)` gives `n`. */
  lemma {:induction false} NatToStringValue(n: nat)
    ensures DigitsValue(NatToString(n)) == n
    decreases n
  {
    var r := NatToString(n);
    if n >= 10 {
      NatToStringValue(n / 10);
      assert r[..|r| - 1] == NatToString(n / 10);
    }
  }

  /** `str` is injective on natural numbers. */
  lemma NatToStringInjective(a: nat, b: nat)
    requires NatToString(a) == NatToString(b)
    ensures a == b
  {
    NatToStringValue(a);
    NatToStringValue(b);
  }

  /** Digits separated by single underscores, as Python's `int()` accepts them. */
  predicate DigitGroups(s: string) {
    && |s| > 0
    && IsDigit(s[0])
    && IsDigit(s[|s| - 1])
    && (forall i :: 0 <= i < |s| ==> IsDigit(s[i]) || s[i] == '_')
    && !Contains(s, "__")
  }

  /** The digits of `s`, underscores dropped. */
  function RemoveUnderscores(s: string): (r: string)
    requires forall i :: 0 <= i < |s| ==> IsDigit(s[i]) || s[i] == '_'
    ensures forall i :: 0 <= i < |r| ==> IsDigit(r[i])
    decreases |s|
  {
    if |s| == 0 then ""
    else if s[0] == '_' then RemoveUnderscores(s[1..])
    else [s[0]] + RemoveUnderscores(s[1..])
  }

  /** Python's `int(s)` on a string: surrounding whitespace, an optional sign, then
      decimal digit groups; `None` where Python raises `ValueError`. */
  function ParseInt(s: string): (r: Option<int>)
    ensures Strip(s) == "" ==> r.None?
    ensures IsDigits(Strip(s)) ==> r == Some(DigitsValue(Strip(s)) as int)
    ensures |Strip(s)| > 0 && (Strip(s)[0] == '+' || Strip(s)[0] == '-') && IsDigits(Strip(s)[1..]) ==>
      r == Some(if Strip(s)[0] == '-' then -(DigitsValue(Strip(s)[1..]) as int) else DigitsValue(Strip(s)[1..]) as int)
  {
    ParseSignedCases(Strip(s));
    ParseSigned(Strip(s))
  }

  /** How `ParseSigned` reads empty text, a run of digits, and a sign then digits. */
  lemma ParseSignedCases(t: string)
    ensures t == "" ==> ParseSigned(t).None?
    ensures IsDigits(t) ==> ParseSigned(t) == Some(DigitsValue(t) as int)
    ensures |t| > 0 && (t[0] == '+' || t[0] == '-') && IsDigits(t[1..]) ==>
      ParseSigned(t) == Some(if t[0] == '-' then -(DigitsValue(t[1..]) as int) else DigitsValue(t[1..]) as int)
  {
    if t == "" {
    } else if IsDigits(t) {
      ParseSignedOfDigits(t);
    } else if t[0] == '-' && IsDigits(t[1..]) {
      ParseSignedOfMinusDigits(t);
    } else if t[0] == '+' && IsDigits(t[1..]) {
      ParseSignedOfPlusDigits(t);
    }
  }

  /** The text after one leading sign, if there is one. */
  function Unsigned(t: string): (u: string)
    ensures |t| > 0 && (t[0] == '+' || t[0] == '-') ==> u == t[1..]
    ensures t == [] || (t[0] != '+' && t[0] != '-') ==> u == t
  {
    if |t| > 0 && (t[0] == '+' || t[0] == '-') then t[1..] else t
  }

  /** An optional sign, then digit groups. */
  function ParseSigned(t: string): Option<int> {
    match ParseUnsigned(Unsigned(t))
    case None => None
    case Some(v) => Some(if |t| > 0 && t[0] == '-' then -v else v)
  }

  /** `int()` reads exactly the text that, stripped and without one leading sign,
      is digits separated by single underscores; it raises on anything else. */
  lemma ParseIntAccepted(s: string)
    ensures ParseInt(s).Some? <==> DigitGroups(Unsigned(Strip(s)))
  {
  }

  /** `int()` raises on text holding, after the stripping and an optional leading
      sign, any character other than a digit or `_` (a letter, a decimal point, a
      second sign). */
  lemma ParseIntRefusesStrayChar(s: string, i: int)
    requires 0 <= i < |Strip(s)|
    requires !IsDigit(Strip(s)[i]) && Strip(s)[i] != '_'
    requires i > 0 || (Strip(s)[0] != '+' && Strip(s)[0] != '-')
    ensures ParseInt(s) == None
  {
    var t := Strip(s);
    ParseIntAccepted(s);
    if |t| > 0 && (t[0] == '+' || t[0] == '-') {
      assert Unsigned(t)[i - 1] == t[i];
    } else {
      assert Unsigned(t)[i] == t[i];
    }
  }

  /** `int()` raises on a doubled underscore between digits. */
  lemma ParseIntRefusesDoubledUnderscore(s: string)
    requires Contains(Strip(s), "__")
    ensures ParseInt(s) == None
  {
    var t := Strip(s);
    ParseIntAccepted(s);
    if |t| > 0 && (t[0] == '+' || t[0] == '-') {
      if DigitGroups(t[1..]) {
        ContainsAfterFirst(t, "__");
      }
    }
  }

  /** An occurrence of `"__"` in a string that starts with a sign is in its tail. */
  lemma ContainsAfterFirst(t: string, p: string)
    requires |t| > 0 && |p| > 0 && p[0] == '_' && t[0] != '_' && Contains(t, p)
    ensures Contains(t[1..], p)
  {
  }

  /** `int()` of digit groups, with an optional sign and surrounding whitespace, is
      the number the digits denote once the underscores are dropped. */
  lemma ParseIntOfGroups(s: string)
    requires DigitGroups(Unsigned(Strip(s)))
    ensures var t := Strip(s); var v := DigitsValue(RemoveUnderscores(Unsigned(t))) as int;
      ParseInt(s) == Some(if t[0] == '-' then -v else v)
  {
  }

  /** Digit groups, read as a number. */
  function ParseUnsigned(t: string): Option<int> {
    if DigitGroups(t) then Some(DigitsValue(RemoveUnderscores(t)) as int) else None
  }

  /** A run of digits reads as the number it denotes. */
  lemma ParseUnsignedOfDigits(r: string)
    requires IsDigits(r)
    ensures ParseUnsigned(r) == Some(DigitsValue(r) as int)
  {
    DigitsAreGroups(r);
  }

  /** A non-empty run of digits is a valid digit group, with no underscore to drop. */
  lemma DigitsAreGroups(r: string)
    requires IsDigits(r)
    ensures DigitGroups(r) && RemoveUnderscores(r) == r
  {
    NoUnderscoreInDigits(r);
    NoUnderscoreToRemove(r);
  }

  /** Without underscores there is nothing for `RemoveUnderscores` to drop. */
  lemma {:induction false} NoUnderscoreToRemove(s: string)
    requires forall i :: 0 <= i < |s| ==> IsDigit(s[i])
    ensures RemoveUnderscores(s) == s
    decreases |s|
  {
    if |s| > 0 {
      NoUnderscoreToRemove(s[1..]);
      assert [s[0]] + s[1..] == s;
    }
  }

  /** `int()` of a run of digits is the number they denote. */
  lemma ParseIntOfDigits(r: string)
    requires IsDigits(r)
    ensures ParseInt(r) == Some(DigitsValue(r) as int)
  {
    StripKeeps(r);
    ParseSignedOfDigits(r);
    ParseIntOfStripped(r);
  }

  /** An unsigned run of digits reads as the number it denotes. */
  lemma ParseSignedOfDigits(r: string)
    requires IsDigits(r)
    ensures ParseSigned(r) == Some(DigitsValue(r) as int)
  {
    ParseUnsignedOfDigits(r);
    UnsignedWhenNoSign(r);
  }

  /** Text with nothing to strip is read as it stands. */
  lemma ParseIntOfStripped(s: string)
    requires Strip(s) == s
    ensures ParseInt(s) == ParseSigned(s)
  {
  }

  /** Without a leading sign the text is read as unsigned digit groups. */
  lemma UnsignedWhenNoSign(t: string)
    requires t == [] || (t[0] != '+' && t[0] != '-')
    ensures ParseSigned(t) == ParseUnsigned(t)
  {
  }

  /** `int()` of a minus sign then a run of digits is the negated number. */
  lemma ParseIntOfMinusDigits(t: string)
    requires |t| > 0 && t[0] == '-' && IsDigits(t[1..])
    ensures ParseInt(t) == Some(-(DigitsValue(t[1..]) as int))
  {
    assert IsDigit(t[1..][|t| - 2]);
    StripKeeps(t);
    ParseSignedOfMinusDigits(t);
    ParseIntOfStripped(t);
  }

  /** A minus sign then a run of digits reads as the negated number. */
  lemma ParseSignedOfMinusDigits(t: string)
    requires |t| > 0 && t[0] == '-' && IsDigits(t[1..])
    ensures ParseSigned(t) == Some(-(DigitsValue(t[1..]) as int))
  {
    ParseUnsignedOfDigits(t[1..]);
  }

  /** A plus sign then a run of digits reads as the number they denote. */
  lemma ParseSignedOfPlusDigits(t: string)
    requires |t| > 0 && t[0] == '+' && IsDigits(t[1..])
    ensures ParseSigned(t) == Some(DigitsValue(t[1..]) as int)
  {
    ParseUnsignedOfDigits(t[1..]);
  }

  /** `int(str(n)) == n` */
  lemma ParseIntOfNatToString(n: nat)
    ensures ParseInt(NatToString(n)) == Some(n)
  {
    NatToStringValue(n);
    ParseIntOfDigits(NatToString(n));
  }

  /** A string of digits holds no `__`. */
  lemma {:induction false} NoUnderscoreInDigits(r: string)
    requires forall i :: 0 <= i < |r| ==> IsDigit(r[i])
    ensures !Contains(r, "__")
    decreases |r|
  {
    if |r| > 0 {
      NoUnderscoreInDigits(r[1..]);
      if |r| >= 2 {
        assert r[..2][0] != '_';
      }
    }
  }

  /** `int('-' + str(n)) == -n` */
  lemma ParseIntOfNegated(n: nat)
    ensures ParseInt("-" + NatToString(n)) == Some(-(n as int))
  {
    var t := "-" + NatToString(n);
    assert t[1..] == NatToString(n);
    NatToStringValue(n);
    ParseIntOfMinusDigits(t);
  }
}
