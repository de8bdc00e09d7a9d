/** The PHP built-ins the importers and the read API rely on, stated over
    strings as sequences of characters: null-coalescing, truthiness, `trim`,
    `strpos`, `explode`/`implode`, the PCRE class `\s`, `preg_replace('/\s+/', '')`,
    and loose `==` between digit strings. */
module Php {

  /** A PHP value that may be null (or a missing array key). */
  datatype Option<+T> = None | Some(value: T) {
    /** `$x ?? default` */
    function GetOr(default: T): T {
      match this
      case Some(v) => v
      case None => default
    }
  }

  /** A string is falsy in PHP (`if ($s)`, `empty($s)`) when it is "" or "0". */
  predicate Truthy(s: string) {
    s != "" && s != "0"
  }

  // ---------------------------------------------------------------- trim

  /** The characters `trim` strips when no list is given. */
  predicate IsTrimmed(c: char) {
    c == ' ' || c == '\t' || c == '\n' || c == '\r' || c == '\0' || c == '\U{0B}'
  }

  predicate AllTrimmed(s: string) {
    forall i :: 0 <= i < |s| ==> IsTrimmed(s[i])
  }

  function TrimLeft(s: string): (r: string)
    ensures |r| <= |s| && r == s[|s| - |r|..]
    ensures AllTrimmed(s[..|s| - |r|])
    ensures r == [] || !IsTrimmed(r[0])
  {
    if s != [] && IsTrimmed(s[0]) then TrimLeft(s[1..]) else s
  }

  function TrimRight(s: string): (r: string)
    ensures |r| <= |s| && r == s[..|r|]
    ensures AllTrimmed(s[|r|..])
    ensures r == [] || !IsTrimmed(r[|r| - 1])
  {
    if s != [] && IsTrimmed(s[|s| - 1]) then TrimRight(s[..|s| - 1]) else s
  }

  /** `trim($s)`: the infix left after dropping trimmed characters from both
      ends; it neither starts nor ends with one. */
  function Trim(s: string): (r: string)
    ensures |r| <= |s|
    ensures r == [] || (!IsTrimmed(r[0]) && !IsTrimmed(r[|r| - 1]))
    ensures TrimmedAt(s, r, |s| - |TrimLeft(s)|)
  {
    var l := TrimLeft(s);
    var r := TrimRight(l);
    TrimParts(s);
    r
  }

  lemma TrimParts(s: string)
    ensures TrimmedAt(s, TrimRight(TrimLeft(s)), |s| - |TrimLeft(s)|)
  {
    var l := TrimLeft(s);
    var r := TrimRight(l);
    var i := |s| - |l|;
    assert AllTrimmed(s[..i]);
    assert r == s[i..i + |r|] by {
      assert l == s[i..] && r == l[..|r|];
    }
    assert AllTrimmed(s[i + |r|..]) by {
      assert AllTrimmed(l[|r|..]);
      assert s[i + |r|..] == l[|r|..];
    }
    assert TrimmedAt(s, r, i);
  }

  /** `r` is `s[i..i+|r|]` and everything around it is trimmed. */
  predicate TrimmedAt(s: string, r: string, i: int) {
    0 <= i && i + |r| <= |s| && r == s[i..i + |r|]
    && AllTrimmed(s[..i]) && AllTrimmed(s[i + |r|..])
  }

  lemma {:induction false} TrimLeftOfClean(s: string)
    requires s == [] || !IsTrimmed(s[0])
    ensures TrimLeft(s) == s
  {
  }

  /** Trimming twice is trimming once. */
  lemma TrimIdempotent(s: string)
    ensures Trim(Trim(s)) == Trim(s)
  {
    var t := Trim(s);
    TrimLeftOfClean(t);
    if t != [] {
      assert TrimRight(t) == t;
    }
  }

  // ---------------------------------------------------------------- strpos

  /** `needle` occurs in `s` at position `i`. */
  predicate OccursAt(s: string, needle: string, i: int) {
    0 <= i && i + |needle| <= |s| && s[i..i + |needle|] == needle
  }

  function IndexFrom(s: string, needle: string, k: nat): (r: Option<nat>)
    requires k <= |s|
    ensures r.Some? ==> k <= r.value && OccursAt(s, needle, r.value)
    ensures r.Some? ==> forall j :: k <= j < r.value ==> !OccursAt(s, needle, j)
    ensures r.None? ==> forall j :: k <= j ==> !OccursAt(s, needle, j)
    decreases |s| - k
  {
    if OccursAt(s, needle, k) then Some(k)
    else if k + |needle| >= |s| then None
    else IndexFrom(s, needle, k + 1)
  }

  /** `strpos($s, $needle)`: the first position of `needle` in `s`. */
  function IndexOf(s: string, needle: string): (r: Option<nat>)
    ensures r.Some? ==> OccursAt(s, needle, r.value)
    ensures r.Some? ==> forall j :: 0 <= j < r.value ==> !OccursAt(s, needle, j)
    ensures r.None? ==> forall j :: 0 <= j ==> !OccursAt(s, needle, j)
  {
    IndexFrom(s, needle, 0)
  }

  /** `strpos($s, $needle) !== false` */
  predicate Contains(s: string, needle: string) {
    IndexOf(s, needle).Some?
  }

  /** `strtolower` on ASCII letters; every other character is kept. */
  function LowerAscii(s: string): (r: string)
    ensures |r| == |s|
    ensures forall k :: 0 <= k < |s| ==>
      r[k] == if 'A' <= s[k] <= 'Z' then (s[k] as int + 32) as char else s[k]
  {
    if s == [] then []
    else [if 'A' <= s[0] <= 'Z' then (s[0] as int + 32) as char else s[0]] + LowerAscii(s[1..])
  }

  /** `stripos($s, $needle) !== false` for a needle written in lower case:
      the haystack is folded on ASCII letters only. */
  predicate ContainsNoCase(s: string, needle: string) {
    Contains(LowerAscii(s), needle)
  }

  /** `explode($sep, $s, 2)` when `$sep` occurs: the text before its first
      occurrence and the text after it. */
  function SplitFirst(s: string, sep: string): (r: Option<(string, string)>)
    ensures r.Some? <==> Contains(s, sep)
    ensures r.Some? ==> s == r.value.0 + sep + r.value.1
    ensures r.Some? && sep != [] ==> !Contains(r.value.0, sep)
  {
    match IndexOf(s, sep)
    case None => None
    case Some(i) =>
      SplitFirstParts(s, sep, i);
      Some((s[..i], s[i + |sep|..]))
  }

  lemma SplitFirstParts(s: string, sep: string, i: nat)
    requires OccursAt(s, sep, i)
    requires forall j :: 0 <= j < i ==> !OccursAt(s, sep, j)
    ensures s == s[..i] + sep + s[i + |sep|..]
    ensures sep != [] ==> !Contains(s[..i], sep)
  {
    assert s == s[..i] + s[i..i + |sep|] + s[i + |sep|..];
    if sep != [] && Contains(s[..i], sep) {
      var j := IndexOf(s[..i], sep).value;
      assert s[..i][j..j + |sep|] == s[j..j + |sep|];
      assert OccursAt(s, sep, j);
    }
  }

  // ---------------------------------------------------------------- explode

  /** `explode($sep, $s)` for a one-character separator. */
  function Explode(s: string, sep: char): (parts: seq<string>)
    ensures |parts| >= 1
    ensures forall k :: 0 <= k < |parts| ==> sep !in parts[k]
  {
    if s == [] then [""]
    else
      var rest := Explode(s[1..], sep);
      if s[0] == sep then [""] + rest
      else [[s[0]] + rest[0]] + rest[1..]
  }

  /** `implode($sep, $parts)` */
  function Implode(sep: char, parts: seq<string>): string
  {
    if parts == [] then ""
    else if |parts| == 1 then parts[0]
    else parts[0] + [sep] + Implode(sep, parts[1..])
  }

  /** `explode` loses nothing: gluing the parts back gives the input. */
  lemma {:induction false} ImplodeExplode(s: string, sep: char)
    ensures Implode(sep, Explode(s, sep)) == s
  {
    if s != [] {
      var rest := Explode(s[1..], sep);
      ImplodeExplode(s[1..], sep);
      if s[0] == sep {
        assert Explode(s, sep) == [""] + rest;
        assert ([""] + rest)[1..] == rest;
      } else {
        var parts := Explode(s, sep);
        assert parts == [[s[0]] + rest[0]] + rest[1..];
        if |rest| == 1 {
          assert Implode(sep, parts) == [s[0]] + rest[0];
        } else {
          assert parts[1..] == rest[1..];
          assert Implode(sep, rest) == rest[0] + [sep] + Implode(sep, rest[1..]);
        }
      }
    }
  }

  /** The separator occurs in `s` exactly when `explode` yields more than one
      part, and then the parts after the first glue back to the text after the
      first separator. */
  lemma {:induction false} ExplodeTail(s: string, sep: char)
    ensures |Explode(s, sep)| > 1 <==> sep in s
    ensures sep in s ==> exists i :: (FirstCharAt(s, sep, i)
      && Implode(sep, Explode(s, sep)[1..]) == s[i + 1..])
  {
    if s != [] {
      var rest := Explode(s[1..], sep);
      ExplodeTail(s[1..], sep);
      if s[0] == sep {
        ImplodeExplode(s[1..], sep);
        assert ([""] + rest)[1..] == rest;
        assert FirstCharAt(s, sep, 0);
      } else {
        assert sep in s <==> sep in s[1..] by {
          assert s == [s[0]] + s[1..];
        }
        if sep in s {
          var i :| FirstCharAt(s[1..], sep, i)
            && Implode(sep, rest[1..]) == s[1..][i + 1..];
          assert FirstCharAt(s, sep, i + 1);
          assert s[1..][i + 1..] == s[i + 2..];
          assert Explode(s, sep)[1..] == rest[1..];
        }
      }
    }
  }

  /** `i` is the position of the first `sep` in `s`. */
  predicate FirstCharAt(s: string, sep: char, i: int) {
    0 <= i < |s| && s[i] == sep && sep !in s[..i]
  }

  // ---------------------------------------------------------------- \s

  /** The PCRE class `\s`: space, tab, line feed, vertical tab, form feed,
      carriage return. */
  predicate IsSpace(c: char) {
    c == ' ' || c == '\t' || c == '\n' || c == '\U{0B}' || c == '\U{0C}' || c == '\r'
  }

  /** `preg_replace('/\s+/', '', $s)`: every `\s` character removed. */
  function StripSpaces(s: string): (r: string)
    ensures |r| <= |s|
    ensures forall k :: 0 <= k < |r| ==> !IsSpace(r[k])
    ensures (forall k :: 0 <= k < |s| ==> !IsSpace(s[k])) ==> r == s
  {
    if s == [] then ""
    else if IsSpace(s[0]) then StripSpaces(s[1..])
    else [s[0]] + StripSpaces(s[1..])
  }

  /** Stripping works piecewise: a separated number strips to the
      concatenation of its stripped pieces. */
  lemma {:induction false} StripSpacesAppend(a: string, b: string)
    ensures StripSpaces(a + b) == StripSpaces(a) + StripSpaces(b)
  {
    if a != [] {
      assert (a + b)[1..] == a[1..] + b;
      StripSpacesAppend(a[1..], b);
    } else {
      assert a + b == b;
    }
  }

  // ---------------------------------------------------------------- digits

  predicate IsDigit(c: char) {
    '0' <= c <= '9'
  }

  predicate AllDigits(s: string) {
    forall k :: 0 <= k < |s| ==> IsDigit(s[k])
  }

  /** A non-empty run of ASCII digits: the strings this model treats as PHP
      numeric strings. */
  predicate IsDigitString(s: string) {
    |s| > 0 && AllDigits(s)
  }

  function DigitValue(c: char): nat
    requires IsDigit(c)
  {
    (c as int - '0' as int) as nat
  }

  /** The number a digit string denotes (leading zeros allowed). */
  function DigitsValue(s: string): nat
    requires AllDigits(s)
  {
    if s == [] then 0 else DigitsValue(s[..|s| - 1]) * 10 + DigitValue(s[|s| - 1])
  }

  /** `(string)$n` for a non-negative integer. */
  function NatToString(n: nat): (r: string)
    ensures IsDigitString(r)
    ensures r[0] != '0' || n == 0
  {
    if n < 10 then [('0' as int + n) as char]
    else NatToString(n / 10) + [('0' as int + n % 10) as char]
  }

  /** Reading back the decimal form of `n` gives `n`. */
  lemma {:induction false} NatToStringValue(n: nat)
    ensures DigitsValue(NatToString(n)) == n
  {
    if n >= 10 {
      NatToStringValue(n / 10);
      var s := NatToString(n);
      assert s[..|s| - 1] == NatToString(n / 10);
    }
  }

  /** PHP's `$a == $b` on two strings: two numeric strings compare as
      numbers, anything else compares as text. */
  predicate LooseEquals(a: string, b: string) {
    if IsDigitString(a) && IsDigitString(b) then DigitsValue(a) == DigitsValue(b)
    else a == b
  }

  /** `$text == (string)$n` holds exactly when `text` is a digit string
      denoting `n` (leading zeros allowed). */
  lemma LooseEqualsNumber(text: string, n: nat)
    ensures LooseEquals(text, NatToString(n)) <==> IsDigitString(text) && DigitsValue(text) == n
  {
    NatToStringValue(n);
  }
}
