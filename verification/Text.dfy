/**
  String splitting and joining as Go's `strings.Split` does it, and decimal numbers as
  `strconv.ParseInt` reads them in base 10 with 64 bits.
 */
module Text {
  import opened Words

  /** The position of the first occurrence of `sep` in `s`. */
  function Index(s: string, sep: string): (r: Option<nat>)
    requires sep != ""
    ensures r.Some? ==> r.value + |sep| <= |s|
  {
    if sep <= s then Some(0)
    else if s == "" then None
    else
      match Index(s[1..], sep)
      case None => None
      case Some(i) => Some(i + 1)
  }

  function Split(s: string, sep: string): (parts: seq<string>)
    requires sep != ""
    ensures parts != []
    decreases |s|
  {
    match Index(s, sep)
    case None => [s]
    case Some(i) => [s[..i]] + Split(s[i + |sep|..], sep)
  }

  function Join(parts: seq<string>, sep: string): string {
    if |parts| == 0 then ""
    else if |parts| == 1 then parts[0]
    else parts[0] + sep + Join(parts[1..], sep)
  }

  predicate Free(s: string, c: char) { c !in s }

  predicate AllFree(parts: seq<string>, c: char) { forall i :: 0 <= i < |parts| ==> Free(parts[i], c) }

  lemma {:induction false} IndexFound(s: string, sep: string)
    requires sep != "" && Index(s, sep).Some?
    ensures var i := Index(s, sep).value; s[i..i + |sep|] == sep
  {
    if sep <= s {
      assert s[0..|sep|] == s[..|sep|];
    } else {
      IndexFound(s[1..], sep);
      var i := Index(s[1..], sep).value;
      assert s[1..][i..i + |sep|] == s[i + 1..i + 1 + |sep|];
    }
  }

  /** Joining what was split gives the string back. */
  lemma {:induction false} JoinSplit(s: string, sep: string)
    requires sep != ""
    ensures Join(Split(s, sep), sep) == s
    decreases |s|
  {
    if Index(s, sep).Some? {
      var i := Index(s, sep).value;
      var rest := s[i + |sep|..];
      IndexFound(s, sep);
      JoinSplit(rest, sep);
      assert ([s[..i]] + Split(rest, sep))[1..] == Split(rest, sep);
      assert s == s[..i] + s[i..i + |sep|] + rest;
    }
  }

  /** The first occurrence of a character. */
  lemma {:induction false} IndexOfChar(a: string, c: char, b: string)
    requires Free(a, c)
    ensures Index(a + [c] + b, [c]) == Some(|a|)
  {
    var s := a + [c] + b;
    if a == "" {
      assert s[0] == c;
    } else {
      assert s[0] == a[0] != c;
      assert s[1..] == a[1..] + [c] + b;
      IndexOfChar(a[1..], c, b);
    }
  }

  lemma {:induction false} IndexOfNoChar(s: string, c: char)
    ensures Index(s, [c]) == None <==> Free(s, c)
  {
    if s != "" {
      IndexOfNoChar(s[1..], c);
      assert s == [s[0]] + s[1..];
    }
  }

  lemma {:induction false} IndexBeforeFree(s: string, c: char)
    requires Index(s, [c]).Some?
    ensures Free(s[..Index(s, [c]).value], c)
  {
    if !([c] <= s) {
      IndexBeforeFree(s[1..], c);
      var i := Index(s[1..], [c]).value;
      assert s[..i + 1] == [s[0]] + s[1..][..i];
      assert s[0] != c;
    }
  }

  /** Splitting at a character leaves parts without it. */
  lemma {:induction false} SplitFree(s: string, c: char)
    ensures AllFree(Split(s, [c]), c)
    decreases |s|
  {
    if Index(s, [c]).Some? {
      IndexBeforeFree(s, c);
      SplitFree(s[Index(s, [c]).value + 1..], c);
    } else {
      IndexOfNoChar(s, c);
    }
  }

  /** Splitting what was joined gives the parts back, if the separator was in none of them. */
  lemma {:induction false} SplitJoin(parts: seq<string>, c: char)
    requires parts != [] && AllFree(parts, c)
    ensures Split(Join(parts, [c]), [c]) == parts
  {
    if |parts| == 1 {
      IndexOfNoChar(parts[0], c);
    } else {
      var rest := Join(parts[1..], [c]);
      IndexOfChar(parts[0], c, rest);
      var s := parts[0] + [c] + rest;
      assert s[..|parts[0]|] == parts[0] && s[|parts[0]| + 1..] == rest;
      SplitJoin(parts[1..], c);
    }
  }

  // ---------------------------------------------------------------------------
  // Two names with a slash between them.

  /** The first slash ends the first name, so two names are told apart if the first ones have no slash. */
  lemma SlashPairs(a: string, b: string, c: string, d: string)
    requires Free(a, '/') && Free(c, '/')
    ensures a + "/" + b == c + "/" + d <==> a == c && b == d
  {
    IndexOfChar(a, '/', b);
    IndexOfChar(c, '/', d);
    var x, y := a + "/" + b, c + "/" + d;
    assert x[..|a|] == a && x[|a| + 1..] == b && y[..|c|] == c && y[|c| + 1..] == d;
  }

  /** The key of an API object: namespace and name with a slash between them; just the name without a namespace. */
  function MetaKey(namespace: string, name: string): string {
    if namespace != "" then namespace + "/" + name else name
  }

  /** Objects with slash-free namespace and name share a key exactly when they share both. */
  lemma MetaKeysEqualIff(a: string, b: string, c: string, d: string)
    requires Free(a, '/') && Free(b, '/') && Free(c, '/') && Free(d, '/')
    ensures MetaKey(a, b) == MetaKey(c, d) <==> a == c && b == d
  {
    SlashPairs(a, b, c, d);
    assert a != "" ==> MetaKey(a, b)[|a|] == '/';
    assert c != "" ==> MetaKey(c, d)[|c|] == '/';
  }

  // ---------------------------------------------------------------------------
  // Decimal numbers.

  const MIN_INT64 := -0x8000_0000_0000_0000
  const MAX_INT64 := 0x7FFF_FFFF_FFFF_FFFF

  predicate IsDigit(c: char) { '0' <= c <= '9' }

  function DigitValue(c: char): nat
    requires IsDigit(c)
  {
    (c as int) - ('0' as int)
  }

  function DigitChar(d: nat): (c: char)
    requires d < 10
    ensures IsDigit(c) && DigitValue(c) == d
  {
    (('0' as int) + d) as char
  }

  predicate AllDigits(s: string) { forall i :: 0 <= i < |s| ==> IsDigit(s[i]) }

  function DigitsValue(s: string): nat
    requires AllDigits(s)
  {
    if s == "" then 0 else 10 * DigitsValue(s[..|s| - 1]) + DigitValue(s[|s| - 1])
  }

  function ParseInt(s: string): Option<int> {
    var signed := s != "" && (s[0] == '-' || s[0] == '+');
    var digits := if signed then s[1..] else s;
    if digits == "" || !AllDigits(digits) then None
    else
      var n: int := if s[0] == '-' then 0 - DigitsValue(digits) else DigitsValue(digits);
      if MIN_INT64 <= n <= MAX_INT64 then Some(n) else None
  }

  function FormatNat(n: nat): (s: string)
    ensures s != "" && AllDigits(s)
  {
    if n < 10 then [DigitChar(n)] else FormatNat(n / 10) + [DigitChar(n % 10)]
  }

  function FormatInt(n: int): string {
    if n < 0 then "-" + FormatNat(-n) else FormatNat(n)
  }

  lemma {:induction false} DigitsOfFormat(n: nat)
    ensures DigitsValue(FormatNat(n)) == n
  {
    var s := FormatNat(n);
    if n < 10 {
      assert s[..0] == "";
    } else {
      DigitsOfFormat(n / 10);
      assert s[..|s| - 1] == FormatNat(n / 10);
    }
  }

  /** Every 64-bit integer is read back from its decimal form. */
  lemma ParseFormat(n: int)
    requires MIN_INT64 <= n <= MAX_INT64
    ensures ParseInt(FormatInt(n)) == Some(n)
  {
    if n < 0 {
      DigitsOfFormat(-n);
      assert FormatInt(n)[1..] == FormatNat(-n);
    } else {
      DigitsOfFormat(n);
      assert IsDigit(FormatInt(n)[0]);
    }
  }

  /** Decimal places: a further digit counts ones and moves the others up; a sign counts for all. */
  lemma ParsePlaces(s: string, c: char)
    requires s != "" && AllDigits(s) && IsDigit(c)
    ensures ParseInt([c]) == Some(c as int - '0' as int)
    ensures ParseInt(s + [c]).Some? <==>
            ParseInt(s).Some? && 10 * ParseInt(s).value + (c as int - '0' as int) <= MAX_INT64
    ensures ParseInt(s + [c]).Some? ==> ParseInt(s + [c]).value == 10 * ParseInt(s).value + (c as int - '0' as int)
    ensures ParseInt(s).Some? ==>
              ParseInt("+" + s) == ParseInt(s) && ParseInt("-" + s) == Some(0 - ParseInt(s).value)
  {
    var t := s + [c];
    assert IsDigit(s[0]) && AllDigits([c]) && AllDigits(t);
    assert DigitsValue([c]) == DigitValue(c) by { assert [c][..0] == ""; }
    assert DigitsValue(t) == 10 * DigitsValue(s) + DigitValue(c) by { assert t[..|s|] == s; }
    assert t[0] == s[0];
    assert ("+" + s)[1..] == s && ("-" + s)[1..] == s;
  }

  lemma ParseInRange(s: string)
    requires ParseInt(s).Some?
    ensures MIN_INT64 <= ParseInt(s).value <= MAX_INT64
  {
  }

  /** A decimal form has no space in it and is not a lone dash. */
  lemma FormatIsField(n: int)
    ensures Free(FormatInt(n), ' ') && Free(FormatInt(n), '\n') && FormatInt(n) != "-"
  {
    var digits := FormatNat(if n < 0 then -n else n);
    assert forall i :: 0 <= i < |digits| ==> IsDigit(digits[i]);
    assert Free(digits, ' ') && Free(digits, '\n');
    assert n < 0 ==> |FormatInt(n)| > 1;
    assert n >= 0 ==> IsDigit(FormatInt(n)[0]);
  }
}
