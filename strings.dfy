/**
  The few pieces of Rust's `str` that the WILLI2 parsers rely on, over
  `seq<char>`: `split(' ')`, `split_once` on a pattern or on a character
  predicate, `find`, `char::is_alphabetic` (exact on Latin-1) and
  `str::parse::<usize>` with a 64-bit `usize`.
*/
module Strings {
  import opened Wrappers

  /** The largest `usize` on a 64-bit target. */
  const USIZE_MAX: nat := 0xFFFF_FFFF_FFFF_FFFF

  /** `pat` occurs in `s` starting at index `i`. */
  predicate OccursAt(s: string, pat: string, i: nat) {
    i + |pat| <= |s| && s[i..i + |pat|] == pat
  }

  /** The first occurrence of `pat` in `s` at or after `from`. */
  function FindFrom(s: string, pat: string, from: nat): (r: Option<nat>)
    requires from <= |s|
    ensures r.Some? ==> from <= r.value <= |s| && OccursAt(s, pat, r.value)
    ensures r.Some? ==> forall j :: from <= j < r.value ==> !OccursAt(s, pat, j)
    ensures r.None? ==> forall j :: from <= j <= |s| ==> !OccursAt(s, pat, j)
    decreases |s| - from
  {
    if OccursAt(s, pat, from) then Some(from)
    else if from == |s| then None
    else FindFrom(s, pat, from + 1)
  }

  /** `str::split_once(pat)`: the text before and after the first occurrence of `pat`. */
  function SplitOnce(s: string, pat: string): (r: Option<(string, string)>)
    ensures r.Some? ==> s == r.value.0 + pat + r.value.1
    ensures r.Some? ==> forall j :: 0 <= j < |r.value.0| ==> !OccursAt(s, pat, j)
    ensures r.None? <==> forall j :: 0 <= j <= |s| ==> !OccursAt(s, pat, j)
  {
    match FindFrom(s, pat, 0)
    case None => None
    case Some(i) =>
      assert s == s[..i] + s[i..i + |pat|] + s[i + |pat|..];
      Some((s[..i], s[i + |pat|..]))
  }

  /** A header line without a carriage return splits off at the first CRLF unchanged. */
  lemma SplitOnceCrlf(header: string, body: string)
    requires '\r' !in header
    ensures SplitOnce(header + "\r\n" + body, "\r\n") == Some((header, body))
  {
    var s := header + "\r\n" + body;
    assert OccursAt(s, "\r\n", |header|) by {
      assert s[|header|..|header| + 2] == "\r\n";
    }
    forall j | 0 <= j < |header| ensures !OccursAt(s, "\r\n", j) {
      assert s[j] == header[j];
    }
    var r := SplitOnce(s, "\r\n");
    assert r.Some?;
    var k := |r.value.0|;
    assert OccursAt(s, "\r\n", k) by {
      assert s == r.value.0 + "\r\n" + r.value.1;
      assert s[k..k + 2] == "\r\n";
    }
    assert k == |header|;
    assert r.value.0 == s[..|header|] == header;
    assert r.value.1 == s[|header| + 2..] == body;
  }

  /** The index of the first `sep` in `s`, or `|s|` when there is none. */
  function IndexOf(s: string, sep: char): (r: nat)
    ensures r <= |s|
    ensures forall j :: 0 <= j < r ==> s[j] != sep
    ensures r < |s| ==> s[r] == sep
  {
    if |s| == 0 || s[0] == sep then 0 else 1 + IndexOf(s[1..], sep)
  }

  /** The pieces joined back together with `sep` between neighbours. */
  function Join(parts: seq<string>, sep: char): string
    requires |parts| >= 1
  {
    if |parts| == 1 then parts[0] else parts[0] + [sep] + Join(parts[1..], sep)
  }

  /**
    `str::split(sep)` for a single-character separator: every piece, empty ones
    included, so there is always at least one.
  */
  function Split(s: string, sep: char): (r: seq<string>)
    ensures |r| >= 1
    ensures forall k :: 0 <= k < |r| ==> sep !in r[k]
    decreases |s|
  {
    var i := IndexOf(s, sep);
    if i == |s| then [s] else [s[..i]] + Split(s[i + 1..], sep)
  }

  /** Joining a piece in front of other pieces puts one separator between them. */
  lemma JoinCons(piece: string, parts: seq<string>, sep: char)
    requires |parts| >= 1
    ensures Join([piece] + parts, sep) == piece + [sep] + Join(parts, sep)
  {
    assert ([piece] + parts)[1..] == parts;
  }

  /** Joining the pieces with the separator gives back the text that was split. */
  lemma {:induction false} JoinSplit(s: string, sep: char)
    ensures Join(Split(s, sep), sep) == s
    decreases |s|
  {
    var i := IndexOf(s, sep);
    if i < |s| {
      var rest := s[i + 1..];
      assert s == s[..i] + [sep] + rest;
      SplitCons(s[..i], sep, rest);
      JoinSplit(rest, sep);
      JoinCons(s[..i], Split(rest, sep), sep);
    } else {
      assert Split(s, sep) == [s];
    }
  }

  /** Splitting a piece without `sep` followed by `sep` peels that piece off. */
  lemma SplitCons(piece: string, sep: char, rest: string)
    requires sep !in piece
    ensures Split(piece + [sep] + rest, sep) == [piece] + Split(rest, sep)
  {
    var s := piece + [sep] + rest;
    assert forall j :: 0 <= j < |piece| ==> s[j] == piece[j];
    assert s[|piece|] == sep;
    assert IndexOf(s, sep) == |piece|;
    assert s[..|piece|] == piece && s[|piece| + 1..] == rest;
  }

  /** Splitting text without `sep` gives the text itself. */
  lemma SplitNone(s: string, sep: char)
    requires sep !in s
    ensures Split(s, sep) == [s]
  {
    assert IndexOf(s, sep) == |s|;
  }

  /**
    `char::is_alphabetic` on the Latin-1 range: ASCII letters, the ordinal
    indicators, the micro sign and the accented letters of U+00C0..U+00FF
    except the multiplication and division signs.
  */
  predicate IsAlphabetic(c: char) {
    ('A' <= c <= 'Z') || ('a' <= c <= 'z') || c == 'ª' || c == 'µ' || c == 'º'
    || ('À' <= c <= 'Ö') || ('Ø' <= c <= 'ö') || ('ø' <= c <= 'ÿ')
  }

  predicate IsDigit(c: char) {
    '0' <= c <= '9'
  }

  /** The index of the first non-alphabetic character, or `|s|` when every character is a letter. */
  function FirstNonAlphabetic(s: string): (r: nat)
    ensures r <= |s|
    ensures forall j :: 0 <= j < r ==> IsAlphabetic(s[j])
    ensures r < |s| ==> !IsAlphabetic(s[r])
  {
    if |s| == 0 || !IsAlphabetic(s[0]) then 0 else 1 + FirstNonAlphabetic(s[1..])
  }

  function DigitValue(c: char): nat
    requires IsDigit(c)
  {
    c as int - '0' as int
  }

  /** The number a non-empty run of decimal digits denotes, most significant first. */
  function DecimalValue(d: string): nat
    requires forall j :: 0 <= j < |d| ==> IsDigit(d[j])
  {
    if |d| == 0 then 0 else 10 * DecimalValue(d[..|d| - 1]) + DigitValue(d[|d| - 1])
  }

  /**
    `str::parse::<usize>`: an optional leading `+`, then at least one ASCII
    digit and nothing else, denoting a value that fits in 64 bits.
  */
  function ParseUsize(s: string): (r: Option<nat>)
    ensures r.Some? ==> r.value <= USIZE_MAX
    ensures r.Some? ==> |s| > 0 && (IsDigit(s[0]) || s[0] == '+')
    ensures r.Some? ==> forall j :: 0 < j < |s| ==> IsDigit(s[j])
    ensures |s| == 0 || (|s| == 1 && s[0] == '+') ==> r.None?
  {
    var d := if |s| > 0 && s[0] == '+' then s[1..] else s;
    if |d| == 0 || exists j :: 0 <= j < |d| && !IsDigit(d[j]) then None
    else if DecimalValue(d) > USIZE_MAX then None
    else Some(DecimalValue(d))
  }

  /** `n.to_string()`: the shortest decimal numeral of `n`. */
  function DecimalString(n: nat): (r: string)
    ensures |r| >= 1 && IsDigit(r[0])
    ensures forall j :: 0 <= j < |r| ==> IsDigit(r[j])
  {
    var last := ['0' + ((n % 10) as char)];
    if n < 10 then last else DecimalString(n / 10) + last
  }

  lemma {:induction false} DecimalValueOfString(n: nat)
    ensures DecimalValue(DecimalString(n)) == n
  {
    var r := DecimalString(n);
    if n >= 10 {
      DecimalValueOfString(n / 10);
      assert r[..|r| - 1] == DecimalString(n / 10);
    }
  }

  /** Printing a `usize` and parsing it back gives the same number. */
  lemma ParseDecimalString(n: nat)
    requires n <= USIZE_MAX
    ensures ParseUsize(DecimalString(n)) == Some(n)
  {
    DecimalValueOfString(n);
  }

  /** A leading zero or a plus sign does not change the parsed value. */
  lemma ParseLeadingZero(s: string)
    requires ParseUsize(s).Some? && |s| > 0 && IsDigit(s[0])
    ensures ParseUsize("0" + s) == ParseUsize(s)
    ensures ParseUsize("+" + s) == ParseUsize(s)
  {
    ZeroPrefix(s);
    assert ("+" + s)[1..] == s;
  }

  lemma {:induction false} ZeroPrefix(d: string)
    requires forall j :: 0 <= j < |d| ==> IsDigit(d[j])
    ensures forall j :: 0 <= j < |"0" + d| ==> IsDigit(("0" + d)[j])
    ensures DecimalValue("0" + d) == DecimalValue(d)
  {
    var z := "0" + d;
    assert forall j :: 0 < j < |z| ==> z[j] == d[j - 1];
    if |d| > 0 {
      ZeroPrefix(d[..|d| - 1]);
      assert z[..|z| - 1] == "0" + d[..|d| - 1];
    }
  }
}
