/**
 Joining and splitting on a separator, and decimal numerals: the parsing that the
 statistics keys, session tokens and node signatures rely on.
 */
module Text {
  import opened Wrappers

  predicate OccursAt(s: string, sep: string, i: int) {
    0 <= i && i + |sep| <= |s| && s[i..i + |sep|] == sep
  }

  /** The leftmost occurrence of `sep` at or after `from`, or -1. */
  function IndexFrom(s: string, sep: string, from: nat): (r: int)
    ensures r < 0 ==> r == -1 && forall i :: from <= i ==> !OccursAt(s, sep, i)
    ensures r >= 0 ==> from <= r && OccursAt(s, sep, r) && forall i :: from <= i < r ==> !OccursAt(s, sep, i)
    decreases |s| - from
  {
    if from + |sep| > |s| then -1
    else if OccursAt(s, sep, from) then from
    else IndexFrom(s, sep, from + 1)
  }

  /** Cuts `s` at every separator, leftmost first; always at least one piece. */
  function Split(s: string, sep: string): seq<string>
    requires sep != ""
    decreases |s|
  {
    if IndexFrom(s, sep, 0) < 0 then [s]
    else [s[..IndexFrom(s, sep, 0)]] + Split(s[IndexFrom(s, sep, 0) + |sep|..], sep)
  }

  function Join(parts: seq<string>, sep: string): string {
    if parts == [] then ""
    else if |parts| == 1 then parts[0]
    else parts[0] + sep + Join(parts[1..], sep)
  }

  /** The separator's first character appears in no part, so no part can start a separator. */
  ghost predicate Separable(parts: seq<string>, sep: string) {
    sep != "" && forall p :: p in parts ==> sep[0] !in p
  }

  lemma NotBefore(p: string, sep: string, tail: string, i: int)
    requires sep != "" && sep[0] !in p && 0 <= i < |p|
    ensures !OccursAt(p + tail, sep, i)
  {
  }

  lemma IndexAfterPart(p: string, sep: string, tail: string)
    requires sep != "" && sep[0] !in p
    ensures IndexFrom(p + (sep + tail), sep, 0) == |p|
  {
    var s := p + (sep + tail);
    assert s[|p|..|p| + |sep|] == sep;
    assert OccursAt(s, sep, |p|);
    forall i | 0 <= i < |p|
      ensures !OccursAt(s, sep, i)
    {
      NotBefore(p, sep, sep + tail, i);
    }
  }

  lemma NoIndex(p: string, sep: string)
    requires sep != "" && sep[0] !in p
    ensures IndexFrom(p, sep, 0) == -1
  {
  }

  /** Splitting undoes joining. */
  lemma {:induction false} SplitJoin(parts: seq<string>, sep: string)
    requires parts != [] && Separable(parts, sep)
    ensures Split(Join(parts, sep), sep) == parts
    decreases |parts|
  {
    assert parts[0] in parts;
    if |parts| == 1 {
      NoIndex(parts[0], sep);
    } else {
      var rest := Join(parts[1..], sep);
      var s := parts[0] + (sep + rest);
      assert Join(parts, sep) == s;
      IndexAfterPart(parts[0], sep, rest);
      assert s[..|parts[0]|] == parts[0];
      assert s[|parts[0]| + |sep|..] == rest;
      SplitJoin(parts[1..], sep);
    }
  }

  /** Joining undoes splitting, for every string. */
  lemma {:induction false} JoinSplit(s: string, sep: string)
    requires sep != ""
    ensures Split(s, sep) != [] && Join(Split(s, sep), sep) == s
    decreases |s|
  {
    var i := IndexFrom(s, sep, 0);
    if i >= 0 {
      var tail := s[i + |sep|..];
      JoinSplit(tail, sep);
      assert s == s[..i] + s[i..i + |sep|] + tail;
      var pieces := Split(s, sep);
      assert pieces[1..] == Split(tail, sep);
    }
  }

  /** So joining is injective on separable parts. */
  lemma JoinInjective(a: seq<string>, b: seq<string>, sep: string)
    requires a != [] && b != [] && Separable(a, sep) && Separable(b, sep)
    requires Join(a, sep) == Join(b, sep)
    ensures a == b
  {
    SplitJoin(a, sep);
    SplitJoin(b, sep);
  }

  // ---- decimal numerals ----

  const MIN_INT64 := -0x8000_0000_0000_0000
  const MAX_INT64 := 0x7FFF_FFFF_FFFF_FFFF

  predicate IsDigit(c: char) {
    '0' <= c <= '9'
  }

  function DigitChar(n: nat): (c: char)
    requires n < 10
    ensures IsDigit(c) && DigitValue(c) == n
  {
    (n + '0' as int) as char
  }

  lemma DigitsInOrder(n: nat)
    requires n < 10
    ensures DigitChar(n) == "0123456789"[n]
  {
  }

  function DigitValue(c: char): (n: nat)
    requires IsDigit(c)
    ensures n < 10
  {
    c as int - '0' as int
  }

  function Digits(n: nat): (s: string)
    ensures s != "" && forall c :: c in s ==> IsDigit(c)
  {
    if n < 10 then [DigitChar(n)] else Digits(n / 10) + [DigitChar(n % 10)]
  }

  predicate AllDigits(s: string) {
    forall c :: c in s ==> IsDigit(c)
  }

  function Value(s: string): nat
    requires AllDigits(s)
  {
    if s == "" then 0 else Value(s[..|s| - 1]) * 10 + DigitValue(s[|s| - 1])
  }

  lemma {:induction false} ValueDigits(n: nat)
    ensures Value(Digits(n)) == n
  {
    var s := Digits(n);
    if n < 10 {
      assert s[..|s| - 1] == "";
    } else {
      assert s[..|s| - 1] == Digits(n / 10);
      ValueDigits(n / 10);
    }
  }

  function FormatInt(n: int): string {
    if n < 0 then "-" + Digits(-n) else Digits(n)
  }

  function InRange(n: int): Option<int> {
    if MIN_INT64 <= n <= MAX_INT64 then Some(n) else None
  }

  function Signed(neg: bool, digits: string): Option<int> {
    if digits == "" || !AllDigits(digits) then None
    else InRange(if neg then -(Value(digits) as int) else Value(digits))
  }

  /** A 64-bit decimal integer with an optional sign; anything else is an error. */
  function ParseInt(s: string): Option<int> {
    if s == "" then None
    else if s[0] == '-' then Signed(true, s[1..])
    else if s[0] == '+' then Signed(false, s[1..])
    else Signed(false, s)
  }

  /** Parsing undoes formatting exactly on the 64-bit range, and the text holds digits and a sign only. */
  lemma ParseFormat(n: int)
    ensures ParseInt(FormatInt(n)) ==
            if -0x8000_0000_0000_0000 <= n <= 0x7FFF_FFFF_FFFF_FFFF then Some(n) else None
    ensures forall c :: c in FormatInt(n) ==> IsDigit(c) || c == '-'
  {
    if n < 0 {
      ValueDigits(-n);
      assert FormatInt(n)[1..] == Digits(-n);
    } else {
      ValueDigits(n);
      assert FormatInt(n)[0] in FormatInt(n);
    }
  }
}
