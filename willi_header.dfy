/**
  What both generations of the WILLI2 parser share: the header line, made of
  space-separated tokens of which the fourth must be `Version:` and the fifth
  an unsigned integer, and the items the CSV reader yields for the body.
*/
module WilliHeader {
  import opened Wrappers
  import opened Strings

  /** One item produced by the CSV reader: a record's fields, or a line it could not read. */
  datatype CsvRecord = Record(fields: seq<string>) | Malformed

  /** `WilliHeader::from_str`: the version number, or `None` for an unrecognised header. */
  function HeaderVersion(line: string): (r: Option<nat>)
    ensures r.Some? <==>
      var parts := Split(line, ' ');
      |parts| >= 5 && parts[3] == "Version:" && ParseUsize(parts[4]).Some?
    ensures r.Some? ==> r == ParseUsize(Split(line, ' ')[4]) && r.value <= USIZE_MAX
  {
    var parts := Split(line, ' ');
    if |parts| < 4 || parts[3] != "Version:" then None
    else if |parts| < 5 then None
    else ParseUsize(parts[4])
  }

  /**
    A header written as three space-free tokens, `Version:` and a printed
    version number, optionally followed by more space-separated text, parses
    back to that number.
  */
  lemma HeaderRoundTrip(a: string, b: string, c: string, version: nat, tail: string)
    requires ' ' !in a && ' ' !in b && ' ' !in c
    requires version <= USIZE_MAX
    requires tail == [] || tail[0] == ' '
    ensures HeaderVersion(a + " " + b + " " + c + " Version: " + DecimalString(version) + tail)
      == Some(version)
  {
    var v := DecimalString(version);
    var line := a + " " + b + " " + c + " Version: " + v + tail;
    LeadingTokens(a, b, c, v + tail);
    assert line == a + " " + b + " " + c + " Version: " + (v + tail);
    FirstTokenIsNumeral(version, tail);
    ParseDecimalString(version);
  }

  lemma LeadingTokens(a: string, b: string, c: string, rest: string)
    requires ' ' !in a && ' ' !in b && ' ' !in c
    ensures Split(a + " " + b + " " + c + " Version: " + rest, ' ')
      == [a, b, c, "Version:"] + Split(rest, ' ')
  {
    var rest2 := "Version:" + [' '] + rest;
    var rest1 := c + [' '] + rest2;
    var rest0 := b + [' '] + rest1;
    var line := a + " " + b + " " + c + " Version: " + rest;
    assert line == a + [' '] + rest0 by {
      assert " Version: " == [' '] + "Version:" + [' '];
    }
    calc {
      Split(line, ' ');
      { SplitCons(a, ' ', rest0); }
      [a] + Split(rest0, ' ');
      { SplitCons(b, ' ', rest1); }
      [a] + ([b] + Split(rest1, ' '));
      { SplitCons(c, ' ', rest2); }
      [a] + ([b] + ([c] + Split(rest2, ' ')));
      { SplitCons("Version:", ' ', rest); }
      [a] + ([b] + ([c] + (["Version:"] + Split(rest, ' '))));
      [a, b, c, "Version:"] + Split(rest, ' ');
    }
  }

  lemma FirstTokenIsNumeral(version: nat, tail: string)
    requires tail == [] || tail[0] == ' '
    ensures Split(DecimalString(version) + tail, ' ')[0] == DecimalString(version)
  {
    var v := DecimalString(version);
    assert ' ' !in v by {
      forall j | 0 <= j < |v| ensures v[j] != ' ' { assert IsDigit(v[j]); }
    }
    if tail == [] {
      assert v + tail == v;
      SplitNone(v, ' ');
    } else {
      assert v + tail == v + [' '] + tail[1..];
      SplitCons(v, ' ', tail[1..]);
    }
  }
}
