/** The few Python string operations the core relies on: `in`, `lower()`, `int()`,
    `replace()`, and scanning up to a delimiter. Strings are sequences of characters. */
module Strings {
  import opened Wrappers

  /** Python's `needle in hay`: `needle` starts at some position of `hay`
      (the empty string occurs everywhere). */
  ghost predicate Occurs(needle: string, hay: string)
  {
    exists i :: 0 <= i <= |hay| && needle <= hay[i..]
  }

  /** Computes `needle in hay` by trying each start position from the left. */
  function Contains(hay: string, needle: string): (r: bool)
    ensures r <==> Occurs(needle, hay)
    decreases |hay|
  {
    if needle <= hay then
      assert hay[0..] == hay;
      true
    else if hay == [] then
      false
    else
      OccursShift(needle, hay);
      Contains(hay[1..], needle)
  }

  /** When `needle` does not start at position 0, it occurs in `hay` iff it occurs in its tail. */
  lemma OccursShift(needle: string, hay: string)
    requires hay != [] && !(needle <= hay)
    ensures Occurs(needle, hay) <==> Occurs(needle, hay[1..])
  {
    if Occurs(needle, hay) {
      var i :| 0 <= i <= |hay| && needle <= hay[i..];
      assert hay[0..] == hay;
      assert hay[1..][i - 1..] == hay[i..];
    }
    if Occurs(needle, hay[1..]) {
      var i :| 0 <= i <= |hay[1..]| && needle <= hay[1..][i..];
      assert hay[1..][i..] == hay[i + 1..];
    }
  }

  /** A character of `needle` that `hay` lacks keeps `needle` out of `hay`. */
  lemma MissingCharPreventsOccurrence(needle: string, hay: string, c: char)
    requires c in needle && c !in hay
    ensures !Occurs(needle, hay)
  {
  }

  /** `needle` occurs in any string built around it. */
  lemma OccursInside(pre: string, needle: string, post: string)
    ensures Occurs(needle, pre + needle + post)
  {
    var hay := pre + needle + post;
    assert needle <= hay[|pre|..];
  }

  /** Python's `str.lower()` on one character, restricted to ASCII letters. */
  function LowerChar(c: char): char
  {
    if 'A' <= c <= 'Z' then (c as int + 32) as char else c
  }

  /** Python's `str.upper()` on one character, restricted to ASCII letters. */
  function UpperChar(c: char): char
  {
    if 'a' <= c <= 'z' then (c as int - 32) as char else c
  }

  /** `s.lower()`, character by character. */
  function ToLower(s: string): (r: string)
    ensures |r| == |s|
    ensures forall i :: 0 <= i < |r| ==> !('A' <= r[i] <= 'Z')
    ensures forall i :: 0 <= i < |s| && !('A' <= s[i] <= 'Z') ==> r[i] == s[i]
  {
    seq(|s|, i requires 0 <= i < |s| => LowerChar(s[i]))
  }

  /** `s.upper()`, character by character. */
  function ToUpper(s: string): string
  {
    seq(|s|, i requires 0 <= i < |s| => UpperChar(s[i]))
  }

  /** Lower-casing forgets whether a letter was upper- or lower-case to begin with. */
  lemma LowerForgetsCase(s: string)
    ensures ToLower(ToUpper(s)) == ToLower(s)
    ensures ToLower(ToLower(s)) == ToLower(s)
  {
  }

  /** Lower-casing distributes over concatenation. */
  lemma LowerAppend(a: string, b: string)
    ensures ToLower(a + b) == ToLower(a) + ToLower(b)
  {
  }

  predicate IsDigit(c: char)
  {
    '0' <= c <= '9'
  }

  /** A non-empty run of ASCII decimal digits. */
  predicate IsDigits(s: string)
  {
    |s| > 0 && forall i :: 0 <= i < |s| ==> IsDigit(s[i])
  }

  /** The value of a run of decimal digits, most significant first. */
  function DigitsValue(s: string): nat
    requires forall i :: 0 <= i < |s| ==> IsDigit(s[i])
    decreases |s|
  {
    if s == [] then 0
    else
      assert IsDigit(s[|s| - 1]);
      10 * DigitsValue(s[..|s| - 1]) + (s[|s| - 1] as int - '0' as int)
  }

  /** `sys.get_int_max_str_digits()` at its default: `int()` refuses a decimal string with
      more digits than this. */
  const MaxStrDigits: nat := 4300

  /** A run of digits `int()` converts: non-empty and no longer than the digit limit. */
  predicate IsConvertibleDigits(s: string)
  {
    IsDigits(s) && |s| <= MaxStrDigits
  }

  /** The strings Python's `int()` accepts in this model: digits with an optional leading minus,
      at most `MaxStrDigits` of them. */
  predicate IsIntLiteral(s: string)
  {
    IsConvertibleDigits(s) || (|s| > 1 && s[0] == '-' && IsConvertibleDigits(s[1..]))
  }

  /** `int(s)`, with None where Python raises ValueError. */
  function ParseInt(s: string): (r: Option<int>)
    ensures r.Some? <==> IsIntLiteral(s)
  {
    if IsConvertibleDigits(s) then Some(DigitsValue(s))
    else if |s| > 1 && s[0] == '-' && IsConvertibleDigits(s[1..]) then Some(0 - DigitsValue(s[1..]) as int)
    else None
  }

  /** A run of digits longer than the limit is refused, however it starts. */
  lemma {:induction false} OverlongDigitsRefused(s: string)
    requires IsDigits(s) && MaxStrDigits < |s|
    ensures ParseInt(s) == None && ParseInt("-" + s) == None
  {
    assert ("-" + s)[1..] == s;
  }

  function DigitChar(d: nat): char
    requires d < 10
  {
    ('0' as int + d) as char
  }

  /** `str(n)` for a natural number: its decimal digits without leading zeros. */
  function ShowNat(n: nat): string
    decreases n
  {
    if n < 10 then [DigitChar(n)] else ShowNat(n / 10) + [DigitChar(n % 10)]
  }

  /** `str(n)` for an integer. */
  function ShowInt(n: int): string
  {
    if n < 0 then "-" + ShowNat(-n) else ShowNat(n)
  }

  lemma {:induction false} ShowNatIsDigits(n: nat)
    ensures IsDigits(ShowNat(n)) && DigitsValue(ShowNat(n)) == n
    decreases n
  {
    if n >= 10 {
      ShowNatIsDigits(n / 10);
      var s := ShowNat(n);
      assert s[..|s| - 1] == ShowNat(n / 10);
    }
  }

  /** The number of decimal digits of `n`, its sign left out. */
  function DigitCount(n: int): nat
  {
    |ShowNat(if n < 0 then -n else n)|
  }

  /** What `int()` makes of a run of digits, with and without a leading minus. */
  lemma ParseDigits(d: string)
    requires IsDigits(d)
    ensures ParseInt(d) == if |d| <= MaxStrDigits then Some(DigitsValue(d) as int) else None
    ensures ParseInt("-" + d) == if |d| <= MaxStrDigits then Some(0 - DigitsValue(d) as int) else None
  {
    var s := "-" + d;
    assert s[1..] == d;
    assert !IsDigit(s[0]);
  }

  /** `int(str(n)) == n`: the parser reads back the decimal form of every integer within the
      digit limit, and refuses the others. */
  lemma ParseShowRoundTrip(n: int)
    ensures DigitCount(n) <= MaxStrDigits ==> ParseInt(ShowInt(n)) == Some(n)
    ensures MaxStrDigits < DigitCount(n) ==> ParseInt(ShowInt(n)) == None
  {
    var m: nat := if n < 0 then -n else n;
    ShowNatIsDigits(m);
    ParseDigits(ShowNat(m));
  }

  /** `s` with every backslash and every `q` preceded by a backslash. */
  function EscapeFor(s: string, q: char): (r: string)
    ensures |s| <= |r|
    decreases |s|
  {
    if s == [] then []
    else (if s[0] == '\\' || s[0] == q then ['\\', s[0]] else [s[0]]) + EscapeFor(s[1..], q)
  }

  /** Escaping changes nothing in a string holding neither a backslash nor the quote. */
  lemma {:induction false} EscapeWithoutSpecials(s: string, q: char)
    requires '\\' !in s && q !in s
    ensures EscapeFor(s, q) == s
    decreases |s|
  {
    if s != [] {
      EscapeWithoutSpecials(s[1..], q);
      assert s == [s[0]] + s[1..];
    }
  }

  /** Python's `repr` of a string of printable characters: double quotes when the text holds a
      single quote and no double quote, single quotes otherwise, with backslashes and the
      chosen quote escaped. */
  function Repr(s: string): (r: string)
    ensures 2 <= |r| && r[0] == r[|r| - 1]
    ensures r[0] == '"' <==> '\'' in s && '"' !in s
    ensures r[0] == '\'' <==> !('\'' in s && '"' !in s)
  {
    var q := if '\'' in s && '"' !in s then '"' else '\'';
    [q] + EscapeFor(s, q) + [q]
  }

  /** Text without quotes or backslashes is shown between single quotes as it is. */
  lemma ReprPlain(s: string)
    requires '\\' !in s && '\'' !in s
    ensures Repr(s) == "'" + s + "'"
  {
    EscapeWithoutSpecials(s, '\'');
  }

  /** Text with a single quote, no double quote and no backslash is shown between double
      quotes as it is. */
  lemma ReprWithApostrophe(s: string)
    requires '\\' !in s && '\'' in s && '"' !in s
    ensures Repr(s) == "\"" + s + "\""
  {
    EscapeWithoutSpecials(s, '"');
  }

  /** Python's `s.replace(pat, rep)`: every occurrence of `pat`, scanned left to right
      without overlap, is replaced by `rep`. */
  function ReplaceAll(s: string, pat: string, rep: string): string
    requires pat != []
    decreases |s|
  {
    if s == [] then []
    else if pat <= s then rep + ReplaceAll(s[|pat|..], pat, rep)
    else [s[0]] + ReplaceAll(s[1..], pat, rep)
  }

  /** A string in which `pat` never occurs comes out of `replace` unchanged. */
  lemma {:induction false} ReplaceAllWithoutOccurrence(s: string, pat: string, rep: string)
    requires pat != [] && !Occurs(pat, s)
    ensures ReplaceAll(s, pat, rep) == s
    decreases |s|
  {
    if s != [] {
      assert s[0..] == s;
      OccursShift(pat, s);
      ReplaceAllWithoutOccurrence(s[1..], pat, rep);
    }
  }

  /** `replace(pat, "")` on `pat + name` gives back `name` when a character of `pat`
      never appears in `name`. */
  lemma StripLeadingPattern(pat: string, name: string, c: char)
    requires c in pat && c !in name
    ensures ReplaceAll(pat + name, pat, "") == name
  {
    var s := pat + name;
    assert pat <= s;
    assert s[|pat|..] == name;
    MissingCharPreventsOccurrence(pat, name, c);
    ReplaceAllWithoutOccurrence(name, pat, "");
  }

  /** The longest prefix of `s` holding none of the `stops` characters. */
  function TakeUntil(s: string, stops: set<char>): (r: string)
    ensures r <= s
    ensures forall i :: 0 <= i < |r| ==> r[i] !in stops
    ensures |r| < |s| ==> s[|r|] in stops
    decreases |s|
  {
    if s == [] || s[0] in stops then [] else [s[0]] + TakeUntil(s[1..], stops)
  }

  /** `s.find(c)`: the first index of `c` in `s`, or -1. */
  function IndexOf(s: string, c: char): (r: int)
    ensures -1 <= r < |s|
    ensures r >= 0 ==> s[r] == c && c !in s[..r]
    ensures r == -1 ==> c !in s
    decreases |s|
  {
    if s == [] then -1
    else if s[0] == c then 0
    else
      var k := IndexOf(s[1..], c);
      if k == -1 then -1
      else
        assert s[..k + 1] == [s[0]] + s[1..][..k];
        k + 1
  }
}
