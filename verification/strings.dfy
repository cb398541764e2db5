/** The pieces of Go's `strings` package and of `fmt.Sprintf("%d", ...)`
    that the client relies on, each with a reader or characterisation that
    pins down what it computes. Character handling is on `char` values;
    upper-casing covers ASCII letters only. */
module Strings {
  import opened Base

  // ---------------------------------------------------------------------
  // strings.TrimRight(s, cutset) with a one-character cutset

  /** Drops every trailing `c`: the result is the longest prefix of `s`
      that does not end in `c`, and everything cut off is `c`. */
  function TrimRight(s: string, c: char): (r: string)
    ensures r <= s
    ensures |r| == 0 || r[|r| - 1] != c
    ensures forall i | |r| <= i < |s| :: s[i] == c
    decreases |s|
  {
    if |s| > 0 && s[|s| - 1] == c then TrimRight(s[..|s| - 1], c) else s
  }

  /** The three facts in `TrimRight`'s contract determine its result. */
  lemma TrimRightUnique(s: string, c: char, t: string)
    requires t <= s
    requires |t| == 0 || t[|t| - 1] != c
    requires forall i | |t| <= i < |s| :: s[i] == c
    ensures t == TrimRight(s, c)
  {
  }

  // ---------------------------------------------------------------------
  // strings.ToUpper, restricted to ASCII letters

  predicate IsAsciiLower(ch: char) {
    'a' <= ch <= 'z'
  }

  function UpperChar(ch: char): char {
    if 'a' <= ch <= 'z' then (ch as int - 32) as char else ch
  }

  /** Each ASCII lower-case letter becomes the upper-case letter at the
      same place in the alphabet; every other character is kept. */
  function ToUpper(s: string): (r: string)
    ensures |r| == |s|
    ensures forall i | 0 <= i < |s| && IsAsciiLower(s[i]) ::
      'A' <= r[i] <= 'Z' && r[i] as int - 'A' as int == s[i] as int - 'a' as int
    ensures forall i | 0 <= i < |s| && !IsAsciiLower(s[i]) :: r[i] == s[i]
  {
    seq(|s|, i requires 0 <= i < |s| => UpperChar(s[i]))
  }

  /** Upper-casing leaves no ASCII lower-case letter, so doing it twice is
      the same as doing it once. */
  lemma ToUpperIdempotent(s: string)
    ensures forall i | 0 <= i < |s| :: !IsAsciiLower(ToUpper(s)[i])
    ensures ToUpper(ToUpper(s)) == ToUpper(s)
  {
  }

  // ---------------------------------------------------------------------
  // strings.Contains

  /** `sub` appears in `s` starting at position `i`. */
  ghost predicate OccursAt(s: string, sub: string, i: int) {
    0 <= i && i + |sub| <= |s| && s[i..i + |sub|] == sub
  }

  /** Left-to-right search for `sub` in `s`. */
  function Contains(s: string, sub: string): bool
    decreases |s|
  {
    if |s| < |sub| then false
    else if s[..|sub|] == sub then true
    else Contains(s[1..], sub)
  }

  /** The search finds `sub` exactly when it occurs somewhere in `s`. */
  lemma {:induction false} ContainsSpec(s: string, sub: string)
    ensures Contains(s, sub) <==> exists i :: OccursAt(s, sub, i)
    decreases |s|
  {
    if |s| < |sub| {
    } else if s[..|sub|] == sub {
      assert OccursAt(s, sub, 0);
    } else {
      ContainsSpec(s[1..], sub);
      if Contains(s[1..], sub) {
        var i :| OccursAt(s[1..], sub, i);
        assert s[1..][i..i + |sub|] == s[i + 1..i + 1 + |sub|];
        assert OccursAt(s, sub, i + 1);
      } else {
        forall i | OccursAt(s, sub, i)
          ensures 0 < i && OccursAt(s[1..], sub, i - 1)
        {
          assert s[1..][i - 1..i - 1 + |sub|] == s[i..i + |sub|];
        }
      }
    }
  }

  // ---------------------------------------------------------------------
  // strings.Join and strings.Split with a one-character separator

  /** Concatenates `parts` with `sep` between neighbours. */
  function Join(parts: seq<string>, sep: char): string
    decreases |parts|
  {
    if |parts| == 0 then ""
    else if |parts| == 1 then parts[0]
    else parts[0] + [sep] + Join(parts[1..], sep)
  }

  /** Position of the first `c` in `s`, if any. */
  function IndexOf(s: string, c: char): (r: Option<nat>)
    ensures r.None? ==> c !in s
    ensures r.Some? ==> r.value < |s| && s[r.value] == c && c !in s[..r.value]
    decreases |s|
  {
    if |s| == 0 then None
    else if s[0] == c then Some(0)
    else
      match IndexOf(s[1..], c)
      case None => None
      case Some(i) =>
        assert s[..i + 1] == [s[0]] + s[1..][..i];
        Some(i + 1)
  }

  /** Cuts `s` at every `sep`; there is always at least one piece and no
      piece holds `sep`. */
  function Split(s: string, sep: char): (parts: seq<string>)
    ensures |parts| > 0
    ensures forall k | 0 <= k < |parts| :: sep !in parts[k]
    decreases |s|
  {
    match IndexOf(s, sep)
    case None => [s]
    case Some(i) => [s[..i]] + Split(s[i + 1..], sep)
  }

  /** Gluing the pieces back together gives the original text. */
  lemma {:induction false} JoinSplit(s: string, sep: char)
    ensures Join(Split(s, sep), sep) == s
    decreases |s|
  {
    match IndexOf(s, sep)
    case None =>
    case Some(i) =>
      var rest := Split(s[i + 1..], sep);
      JoinSplit(s[i + 1..], sep);
      var parts := [s[..i]] + rest;
      assert Split(s, sep) == parts;
      assert parts[1..] == rest;
      assert s == s[..i] + [sep] + s[i + 1..];
  }

  lemma FirstSeparator(p: string, sep: char, t: string)
    requires sep !in p
    ensures IndexOf(p + [sep] + t, sep) == Some(|p|)
  {
    var s := p + [sep] + t;
    assert s[|p|] == sep;
  }

  /** Splitting undoes joining, provided no part holds the separator. */
  lemma {:induction false} SplitJoin(parts: seq<string>, sep: char)
    requires |parts| > 0
    requires forall k | 0 <= k < |parts| :: sep !in parts[k]
    ensures Split(Join(parts, sep), sep) == parts
    decreases |parts|
  {
    if |parts| == 1 {
      assert IndexOf(parts[0], sep).None?;
    } else {
      var p := parts[0];
      var j := Join(parts[1..], sep);
      var s := p + [sep] + j;
      FirstSeparator(p, sep, j);
      assert s[..|p|] == p;
      assert s[|p| + 1..] == j;
      SplitJoin(parts[1..], sep);
      assert parts == [p] + parts[1..];
    }
  }

  // ---------------------------------------------------------------------
  // fmt.Sprintf("%d", n)

  predicate IsDigit(ch: char) {
    '0' <= ch <= '9'
  }

  predicate AllDigits(s: string) {
    forall i | 0 <= i < |s| :: IsDigit(s[i])
  }

  function DigitChar(d: nat): (ch: char)
    requires d < 10
    ensures IsDigit(ch)
  {
    (d + '0' as int) as char
  }

  /** Decimal digits of `n`, most significant first, with no leading
      zero except for `n == 0` itself. */
  function FormatNat(n: nat): (s: string)
    ensures |s| > 0 && AllDigits(s)
    ensures s[0] == '0' <==> n == 0
    ensures n == 0 ==> s == "0"
    decreases n
  {
    if n < 10 then [DigitChar(n)] else FormatNat(n / 10) + [DigitChar(n % 10)]
  }

  /** The value of a string of decimal digits. */
  function ParseDigits(s: string): nat
    requires AllDigits(s)
    decreases |s|
  {
    if |s| == 0 then 0 else ParseDigits(s[..|s| - 1]) * 10 + (s[|s| - 1] as int - '0' as int)
  }

  lemma {:induction false} ParseFormatNat(n: nat)
    ensures ParseDigits(FormatNat(n)) == n
    decreases n
  {
    if n >= 10 {
      ParseFormatNat(n / 10);
      var s := FormatNat(n);
      assert s[..|s| - 1] == FormatNat(n / 10);
    }
  }

  /** Decimal text in the one form `%d` writes: an optional `-`, then
      digits with no leading zero, and no `-0`. */
  predicate CanonicalDecimal(t: string) {
    if |t| > 0 && t[0] == '-' then
      |t| > 1 && AllDigits(t[1..]) && t[1] != '0'
    else
      |t| > 0 && AllDigits(t) && (t[0] == '0' ==> |t| == 1)
  }

  /** `%d` of a Go integer: a leading `-` for negatives. */
  function FormatInt(i: int): (t: string)
    ensures CanonicalDecimal(t)
    ensures t[0] == '-' <==> i < 0
  {
    if i < 0 then
      var f := FormatNat(-i);
      assert ("-" + f)[1..] == f;
      "-" + f
    else FormatNat(i)
  }

  /** Reads back what `FormatInt` writes; `None` on anything else. */
  function ParseInt(s: string): Option<int> {
    if |s| > 1 && s[0] == '-' && AllDigits(s[1..]) then Some(0 - ParseDigits(s[1..]) as int)
    else if |s| > 0 && AllDigits(s) then Some(ParseDigits(s))
    else None
  }

  /** Formatting loses nothing: the decimal text reads back as the number. */
  lemma FormatIntRoundTrip(i: int)
    ensures ParseInt(FormatInt(i)) == Some(i)
  {
    if i < 0 {
      var f := FormatNat(-i);
      ParseFormatNat(-i);
      assert ("-" + f)[1..] == f;
    } else {
      ParseFormatNat(i);
      assert IsDigit(FormatNat(i)[0]);
    }
  }

  /** A digit string with a non-zero first digit has a positive value. */
  lemma {:induction false} LeadingDigitPositive(t: string)
    requires |t| > 0 && AllDigits(t) && t[0] != '0'
    ensures ParseDigits(t) > 0
    decreases |t|
  {
    if |t| > 1 {
      LeadingDigitPositive(t[..|t| - 1]);
    }
  }

  /** Formatting the value of a digit string without a leading zero gives
      back that string. */
  lemma {:induction false} FormatParseNat(t: string)
    requires |t| > 0 && AllDigits(t) && (t[0] == '0' ==> |t| == 1)
    ensures FormatNat(ParseDigits(t)) == t
    decreases |t|
  {
    var n := ParseDigits(t);
    var d := t[|t| - 1] as int - '0' as int;
    if |t| == 1 {
      assert t[..0] == [];
      assert ParseDigits(t[..0]) == 0;
      assert n == ParseDigits(t[..0]) * 10 + d;
      assert [DigitChar(d)] == t;
    } else {
      var init := t[..|t| - 1];
      LeadingDigitPositive(init);
      FormatParseNat(init);
      assert n / 10 == ParseDigits(init) && n % 10 == d;
      assert init + [t[|t| - 1]] == t;
    }
  }

  /** `%d` text is the only canonical text for its number: any canonical
      decimal string that parses to `n` is `FormatInt(n)`. */
  lemma CanonicalIsFormatInt(t: string, n: int)
    requires CanonicalDecimal(t) && ParseInt(t) == Some(n)
    ensures t == FormatInt(n)
  {
    if t[0] == '-' {
      var u := t[1..];
      LeadingDigitPositive(u);
      FormatParseNat(u);
      assert t == "-" + u;
    } else {
      FormatParseNat(t);
    }
  }
}
