/**
  The first-generation WILLI2 timetable reader: the hole-padded vector that
  stores keyed tables, the `Tag Stunde` field splitter, the split of a record's
  first column into type letters and a numeric id, and the parse loop that
  routes each CSV record into its table and collects per-record errors.

  CSV tokenisation and serde's typed field decoding are library code: the
  tokeniser is a parameter that turns the body text into records, and decoding
  is a parameter that says whether a record decodes as a row of a given table.
  A stored row is the record's field list.
*/
module Willi {
  import opened Wrappers
  import opened Strings
  import opened WilliHeader

  //// SparseVec ////

  /** `n` holes. */
  function Holes<T>(n: nat): (r: seq<Option<T>>)
    ensures |r| == n && forall j :: 0 <= j < n ==> r[j].None?
  {
    seq(n, _ => None)
  }

  /** `Vec::get(idx).and_then(as_ref)` on the slot vector: `None` for a hole or beyond the end. */
  function Lookup<T>(slots: seq<Option<T>>, idx: nat): (r: Option<T>)
    ensures idx >= |slots| ==> r.None?
    ensures idx < |slots| ==> r == slots[idx]
  {
    if idx < |slots| then slots[idx] else None
  }

  /**
    The slot vector after `insert(idx, val)`: slot `idx` holds `val`, every
    other index looks up as before, and the vector grows to `idx + 1` only when
    `idx` was beyond its end.
  */
  function Inserted<T>(slots: seq<Option<T>>, idx: nat, val: T): (r: seq<Option<T>>)
    ensures |r| == if idx < |slots| then |slots| else idx + 1
    ensures Lookup(r, idx) == Some(val)
    ensures forall j: nat :: j != idx ==> Lookup(r, j) == Lookup(slots, j)
  {
    if idx < |slots| then slots[idx := Some(val)] else slots + Holes(idx - |slots|) + [Some(val)]
  }

  /** The filled slots as `(index, value)` pairs, in index order (`iter`). */
  function Entries<T>(slots: seq<Option<T>>): (r: seq<(nat, T)>)
    ensures |r| <= |slots|
    ensures forall k :: 0 <= k < |r| ==> r[k].0 < |slots| && slots[r[k].0] == Some(r[k].1)
    ensures forall k1, k2 :: 0 <= k1 < k2 < |r| ==> r[k1].0 < r[k2].0
  {
    if |slots| == 0 then []
    else
      var n := |slots| - 1;
      var front := Entries(slots[..n]);
      if slots[n].Some? then front + [(n, slots[n].value)] else front
  }

  /** Every filled slot appears among the entries. */
  lemma {:induction false} EntriesComplete<T>(slots: seq<Option<T>>, j: nat)
    requires j < |slots| && slots[j].Some?
    ensures (j, slots[j].value) in Entries(slots)
  {
    var n := |slots| - 1;
    if j < n {
      EntriesComplete(slots[..n], j);
    }
  }

  /** `SparseVec<T>`: a vector of optional rows indexed by primary key. */
  class SparseVec<T> {
    var slots: seq<Option<T>>

    /** `SparseVec::default()`. */
    constructor ()
      ensures slots == []
    {
      slots := [];
    }

    /**
      `insert(idx, val)`: stores `val` at `idx`, padding with holes when `idx`
      is beyond the end, and returns what slot `idx` held before.
    */
    method Insert(idx: nat, val: T) returns (previous: Option<T>)
      modifies this
      ensures previous == Lookup(old(slots), idx)
      ensures slots == Inserted(old(slots), idx, val)
      ensures idx < |old(slots)| ==> slots == old(slots)[idx := Some(val)]
      ensures idx >= |old(slots)| ==> previous.None? && |slots| == idx + 1
      ensures Get(idx) == Some(val)
      ensures forall j: nat :: j != idx ==> Get(j) == old(Get(j))
    {
      if |slots| > idx {
        previous := slots[idx];
        slots := slots[idx := Some(val)];
        return;
      }
      while |slots| < idx
        invariant |old(slots)| <= |slots| <= idx
        invariant slots == old(slots) + Holes(|slots| - |old(slots)|)
      {
        slots := slots + [None];
      }
      slots := slots + [Some(val)];
      previous := None;
    }

    /** `get(idx)`. */
    function Get(idx: nat): (r: Option<T>)
      reads this
      ensures r.Some? ==> idx < |slots| && slots[idx] == r
      ensures idx >= |slots| || slots[idx].None? ==> r.None?
    {
      Lookup(slots, idx)
    }

    /** `iter()`: exactly the filled slots, with strictly ascending indices. */
    function Iter(): (r: seq<(nat, T)>)
      reads this
      ensures forall k :: 0 <= k < |r| ==> Get(r[k].0) == Some(r[k].1)
      ensures forall k1, k2 :: 0 <= k1 < k2 < |r| ==> r[k1].0 < r[k2].0
    {
      Entries(slots)
    }
  }

  //// Field splitters ////

  /** A `Tag Stunde` field: the day and the period. */
  datatype TagStunde = TagStunde(tag: string, stunde: string)

  /** `TagStunde::deserialize`: split at the first space, or fail with the source's message. */
  function ParseTagStunde(s: string): (r: Result<TagStunde, string>)
    ensures r.Ok? ==> s == r.value.tag + " " + r.value.stunde && ' ' !in r.value.tag
    ensures r.Err? <==> ' ' !in s
    ensures r.Err? ==> r.error == "Ungültige Stundenzuordnung"
  {
    match SplitOnce(s, " ")
    case Some((t, st)) =>
      assert ' ' !in t by {
        forall j | 0 <= j < |t| ensures t[j] != ' ' { assert !OccursAt(s, " ", j); assert s[j] == t[j]; }
      }
      Ok(TagStunde(t, st))
    case None =>
      assert ' ' !in s by {
        forall j | 0 <= j < |s| ensures s[j] != ' ' { assert !OccursAt(s, " ", j); }
      }
      Err("Ungültige Stundenzuordnung")
  }

  /** A day without spaces followed by a space and a period splits back into the two. */
  lemma TagStundeRoundTrip(tag: string, stunde: string)
    requires ' ' !in tag
    ensures ParseTagStunde(tag + " " + stunde) == Ok(TagStunde(tag, stunde))
  {
    var s := tag + " " + stunde;
    var r := ParseTagStunde(s);
    assert s[|tag|] == ' ';
    assert r.Ok?;
    var t := r.value.tag;
    assert |t| == |tag| by {
      assert s[|t|] == ' ';
      assert forall j :: 0 <= j < |tag| ==> s[j] == tag[j];
      assert forall j :: 0 <= j < |t| ==> s[j] == t[j];
    }
    assert t == s[..|tag|] == tag;
    assert r.value.stunde == s[|tag| + 1..] == stunde;
  }

  /**
    The first column of a record split into its type letters and its id
    ("LC12" gives ("LC", 12)). The letters are the longest alphabetic prefix;
    a remainder that is empty or not an unsigned number gives id 0.
  */
  function TypeAndId(col: string): (r: (string, nat))
    ensures |r.0| <= |col| && col == r.0 + col[|r.0|..]
    ensures forall j :: 0 <= j < |r.0| ==> IsAlphabetic(r.0[j])
    ensures |r.0| < |col| ==> !IsAlphabetic(col[|r.0|])
    ensures r.1 == match ParseUsize(col[|r.0|..]) case Some(n) => n case None => 0
  {
    var i := FirstNonAlphabetic(col);
    (col[..i], match ParseUsize(col[i..]) case Some(n) => n case None => 0)
  }

  /** Type letters followed by a printed id split back into the two. */
  lemma TypeAndIdRoundTrip(typ: string, id: nat)
    requires forall j :: 0 <= j < |typ| ==> IsAlphabetic(typ[j])
    requires id <= USIZE_MAX
    ensures TypeAndId(typ + DecimalString(id)) == (typ, id)
  {
    var col := typ + DecimalString(id);
    var r := TypeAndId(col);
    assert !IsAlphabetic(col[|typ|]);
    assert forall j :: 0 <= j < |typ| ==> col[j] == typ[j];
    assert |r.0| == |typ|;
    assert r.0 == typ;
    assert col[|typ|..] == DecimalString(id);
    ParseDecimalString(id);
  }

  //// Records and tables ////

  /** A record's fields; a stored row is the record it came from. */
  type Row = seq<string>

  /** The tables indexed by primary key, each held in a `SparseVec`. */
  datatype Kind = Faecher | Unterrichtseinheiten | Klassen | Tage | Stunden | Lehrkraefte

  /** The tables a WILLI2 plan is stored in, one per routed record type. */
  datatype Table = Schuldaten | StundenLehrerplan | KeyedTable(kind: Kind)

  /** The dispatch `match` on the type letters: which table a record type goes to. */
  function TableOf(typ: string): (r: Option<Table>)
    ensures r.None? <==> typ !in {"W", "F", "U", "PL", "K", "T", "S", "L"}
    ensures r == Some(Schuldaten) <==> typ == "W"
    ensures r == Some(StundenLehrerplan) <==> typ == "PL"
    ensures r == Some(KeyedTable(Faecher)) <==> typ == "F"
    ensures r == Some(KeyedTable(Unterrichtseinheiten)) <==> typ == "U"
    ensures r == Some(KeyedTable(Klassen)) <==> typ == "K"
    ensures r == Some(KeyedTable(Tage)) <==> typ == "T"
    ensures r == Some(KeyedTable(Stunden)) <==> typ == "S"
    ensures r == Some(KeyedTable(Lehrkraefte)) <==> typ == "L"
  {
    match typ
    case "W" => Some(Schuldaten)
    case "F" => Some(KeyedTable(Faecher))
    case "U" => Some(KeyedTable(Unterrichtseinheiten))
    case "PL" => Some(StundenLehrerplan)
    case "K" => Some(KeyedTable(Klassen))
    case "T" => Some(KeyedTable(Tage))
    case "S" => Some(KeyedTable(Stunden))
    case "L" => Some(KeyedTable(Lehrkraefte))
    case _ => None
  }

  /** Where an error was found: the header, or the record with that index in the body. */
  datatype Position = Start | AtRecord(index: nat)

  /** The `ParseError` variants that `parse` produces. */
  datatype ParseError = InvalidHeader | MissingType | BadLine(record: Option<Row>)

  /** What one CSV record does to the plan. */
  datatype Effect = Store(table: Table, id: nat, row: Row) | Fail(error: ParseError) | Ignore

  /**
    The fate of one record: a malformed line or a record without fields is an
    error; a record of a routed type is stored if it decodes and an error if it
    does not; a record of any other type is ignored without decoding.
  */
  function EffectOf(rec: CsvRecord, decodes: (Table, Row) -> bool): (r: Effect)
    ensures r.Store? <==>
      (rec.Record? && |rec.fields| > 0
       && TableOf(TypeAndId(rec.fields[0]).0).Some?
       && decodes(TableOf(TypeAndId(rec.fields[0]).0).value, rec.fields))
    ensures r.Store? ==>
      (r.row == rec.fields && r.id == TypeAndId(rec.fields[0]).1
       && Some(r.table) == TableOf(TypeAndId(rec.fields[0]).0))
    ensures r.Ignore? <==> rec.Record? && |rec.fields| > 0 && TableOf(TypeAndId(rec.fields[0]).0).None?
    ensures r == Fail(BadLine(None)) <==> rec.Malformed?
    ensures r == Fail(MissingType) <==> rec.Record? && |rec.fields| == 0
  {
    match rec
    case Malformed => Fail(BadLine(None))
    case Record(fields) =>
      if |fields| == 0 then Fail(MissingType)
      else
        var (typ, id) := TypeAndId(fields[0]);
        match TableOf(typ)
        case None => Ignore
        case Some(t) => if decodes(t, fields) then Store(t, id, fields) else Fail(BadLine(Some(fields)))
  }

  /** The effect of every record, in input order. */
  function Effects(records: seq<CsvRecord>, decodes: (Table, Row) -> bool): (r: seq<Effect>)
    ensures |r| == |records|
    ensures forall i :: 0 <= i < |records| ==> r[i] == EffectOf(records[i], decodes)
  {
    if |records| == 0 then []
    else
      var n := |records| - 1;
      assert forall i :: 0 <= i < n ==> records[..n][i] == records[i];
      Effects(records[..n], decodes) + [EffectOf(records[n], decodes)]
  }

  /** The contents of all tables of a plan; a keyed table missing from the map is empty. */
  datatype Tables = Tables(
    schuldaten: Option<Row>,
    keyed: map<Kind, seq<Option<Row>>>,
    stundenLehrerplan: seq<Row>)

  const NoTables: Tables := Tables(None, map[], [])

  /** The slot vector of a keyed table. */
  function Slots(t: Tables, k: Kind): seq<Option<Row>> {
    if k in t.keyed then t.keyed[k] else []
  }

  /**
    The tables after one effect: a keyed row is inserted at its id, a
    `Schuldaten` row replaces the previous one, and a lesson line is appended.
  */
  function Applied(t: Tables, e: Effect): Tables {
    match e
    case Store(table, id, row) =>
      (match table
       case Schuldaten => t.(schuldaten := Some(row))
       case StundenLehrerplan => t.(stundenLehrerplan := t.stundenLehrerplan + [row])
       case KeyedTable(k) => t.(keyed := t.keyed[k := Inserted(Slots(t, k), id, row)]))
    case _ => t
  }

  /** The tables after the effects, applied in order. */
  function Replay(effects: seq<Effect>): Tables {
    if |effects| == 0 then NoTables
    else Applied(Replay(effects[..|effects| - 1]), effects[|effects| - 1])
  }

  /** The errors among the effects, in order, each tagged with its record's index. */
  function Reported(effects: seq<Effect>): seq<(Position, ParseError)> {
    if |effects| == 0 then []
    else
      var n := |effects| - 1;
      if effects[n].Fail? then Reported(effects[..n]) + [(AtRecord(n), effects[n].error)]
      else Reported(effects[..n])
  }

  //// The parse entry point ////

  /**
    The header line and the body: the text before and after the first CRLF,
    or no header and the whole source as body when there is no CRLF.
  */
  function SplitHeader(source: string): (r: (Option<string>, string))
    ensures r.0.None? ==> r.1 == source && forall j :: 0 <= j <= |source| ==> !OccursAt(source, "\r\n", j)
    ensures r.0.Some? ==> source == r.0.value + "\r\n" + r.1
    ensures r.0.Some? ==> forall j :: 0 <= j < |r.0.value| ==> !OccursAt(source, "\r\n", j)
  {
    match SplitOnce(source, "\r\n")
    case None => (None, source)
    case Some((h, b)) => (Some(h), b)
  }

  /** The version of a recognised header line; `None` when there is no header line or it is not recognised. */
  function HeaderOf(source: string): (r: Option<nat>)
    ensures r.Some? ==> SplitHeader(source).0.Some? && HeaderVersion(SplitHeader(source).0.value) == r
    ensures SplitHeader(source).0.None? ==> r.None?
    ensures SplitHeader(source).0.Some? ==> r == HeaderVersion(SplitHeader(source).0.value)
  {
    match SplitHeader(source).0
    case None => None
    case Some(h) => HeaderVersion(h)
  }

  /** The header error: one `InvalidHeader` at the start exactly when a header line is present and not recognised. */
  function HeaderErrors(source: string): (r: seq<(Position, ParseError)>)
    ensures |r| <= 1
    ensures |r| == 1 <==> SplitHeader(source).0.Some? && HeaderOf(source).None?
    ensures r != [] ==> r[0] == (Start, InvalidHeader)
  {
    match SplitHeader(source).0
    case Some(h) => if HeaderVersion(h).None? then [(Start, InvalidHeader)] else []
    case None => []
  }

  /**
    A first line without a carriage return, followed by CRLF, is the header
    line and the rest is the body; the header error is raised exactly when
    that line is not recognised.
  */
  lemma HeaderLine(line: string, body: string)
    requires '\r' !in line
    ensures SplitHeader(line + "\r\n" + body) == (Some(line), body)
    ensures HeaderOf(line + "\r\n" + body) == HeaderVersion(line)
    ensures HeaderErrors(line + "\r\n" + body) == if HeaderVersion(line).Some? then [] else [(Start, InvalidHeader)]
  {
    SplitOnceCrlf(line, body);
  }

  /** `WilliStundenplan`: the header and the tables, keyed ones held in `SparseVec`s. */
  class Stundenplan {
    var header: Option<nat>
    var schuldaten: Option<Row>
    const faecher: SparseVec<Row>
    const unterrichtseinheiten: SparseVec<Row>
    var stundenLehrerplan: seq<Row>
    const klassen: SparseVec<Row>
    const tage: SparseVec<Row>
    const stunden: SparseVec<Row>
    const lehrkraefte: SparseVec<Row>

    /** The six keyed tables are six different vectors. */
    ghost predicate Valid() {
      faecher != unterrichtseinheiten && faecher != klassen && faecher != tage
      && faecher != stunden && faecher != lehrkraefte
      && unterrichtseinheiten != klassen && unterrichtseinheiten != tage
      && unterrichtseinheiten != stunden && unterrichtseinheiten != lehrkraefte
      && klassen != tage && klassen != stunden && klassen != lehrkraefte
      && tage != stunden && tage != lehrkraefte
      && stunden != lehrkraefte
    }

    /** The vector holding a keyed table. */
    function Vec(k: Kind): SparseVec<Row> {
      match k
      case Faecher => faecher
      case Unterrichtseinheiten => unterrichtseinheiten
      case Klassen => klassen
      case Tage => tage
      case Stunden => stunden
      case Lehrkraefte => lehrkraefte
    }

    ghost function Repr(): set<object> {
      {this, faecher, unterrichtseinheiten, klassen, tage, stunden, lehrkraefte}
    }

    /** The plan's tables agree with `t`. */
    ghost predicate Holds(t: Tables)
      reads Repr()
    {
      schuldaten == t.schuldaten && stundenLehrerplan == t.stundenLehrerplan
      && forall k :: Vec(k).slots == Slots(t, k)
    }

    /** A plan with the given header and empty tables. */
    constructor (header: Option<nat>)
      ensures Valid() && this.header == header && Holds(NoTables)
      ensures fresh(Repr())
    {
      this.header := header;
      schuldaten := None;
      stundenLehrerplan := [];
      faecher := new SparseVec();
      unterrichtseinheiten := new SparseVec();
      klassen := new SparseVec();
      tage := new SparseVec();
      stunden := new SparseVec();
      lehrkraefte := new SparseVec();
    }

    /** The `match (&typ[..], id)` dispatch of one decoded row. */
    method Store(table: Table, id: nat, row: Row, ghost t: Tables)
      requires Valid() && Holds(t)
      modifies Repr()
      ensures Valid() && header == old(header)
      ensures Holds(Applied(t, Effect.Store(table, id, row)))
    {
      match table
      case Schuldaten => schuldaten := Some(row);
      case StundenLehrerplan => stundenLehrerplan := stundenLehrerplan + [row];
      case KeyedTable(k) =>
        var _ := Vec(k).Insert(id, row);
        assert forall k' :: k' != k ==> Vec(k').slots == old(Vec(k').slots);
    }
  }

  /** Reads one record into the plan and returns the errors with this record's error, if any, added. */
  method ReadRecord(plan: Stundenplan, i: nat, rec: CsvRecord, decodes: (Table, Row) -> bool,
                    errors: seq<(Position, ParseError)>, ghost t: Tables)
    returns (errors': seq<(Position, ParseError)>)
    requires plan.Valid() && plan.Holds(t)
    modifies plan.Repr()
    ensures plan.Valid() && plan.header == old(plan.header)
    ensures plan.Holds(Applied(t, EffectOf(rec, decodes)))
    ensures errors' == if EffectOf(rec, decodes).Fail?
      then errors + [(AtRecord(i), EffectOf(rec, decodes).error)] else errors
  {
    errors' := errors;
    match rec
    case Malformed =>
      errors' := errors + [(AtRecord(i), BadLine(None))];
    case Record(fields) =>
      if |fields| == 0 {
        errors' := errors + [(AtRecord(i), MissingType)];
      } else {
        var (typ, id) := TypeAndId(fields[0]);
        match TableOf(typ)
        case None =>
        case Some(table) =>
          if decodes(table, fields) {
            plan.Store(table, id, fields, t);
          } else {
            errors' := errors + [(AtRecord(i), BadLine(Some(fields)))];
          }
      }
  }

  /**
    `WilliStundenplan::parse`: splits off and parses the header, then walks the
    records of the body in order, storing each decodable record of a routed
    type and collecting an error for each faulty one; parsing never stops early.
  */
  method Parse(source: string, tokenize: string -> seq<CsvRecord>, decodes: (Table, Row) -> bool)
    returns (plan: Stundenplan, errors: seq<(Position, ParseError)>)
    ensures fresh(plan.Repr()) && plan.Valid()
    ensures plan.header == HeaderOf(source)
    ensures plan.Holds(Replay(Effects(tokenize(SplitHeader(source).1), decodes)))
    ensures errors == HeaderErrors(source) + Reported(Effects(tokenize(SplitHeader(source).1), decodes))
  {
    var (rawHeader, body) := SplitHeader(source);
    var header: Option<nat> := None;
    errors := [];
    if rawHeader.Some? {
      header := HeaderVersion(rawHeader.value);
      if header.None? {
        errors := [(Start, InvalidHeader)];
      }
    }
    plan := new Stundenplan(header);
    errors := ReadRecords(plan, tokenize(body), decodes, errors);
  }

  /** The `for result in csv_reader.records()` loop: every record is read, in order. */
  method ReadRecords(plan: Stundenplan, records: seq<CsvRecord>, decodes: (Table, Row) -> bool,
                     errors0: seq<(Position, ParseError)>)
    returns (errors: seq<(Position, ParseError)>)
    requires plan.Valid() && plan.Holds(NoTables)
    modifies plan.Repr()
    ensures plan.Valid() && plan.header == old(plan.header)
    ensures plan.Holds(Replay(Effects(records, decodes)))
    ensures errors == errors0 + Reported(Effects(records, decodes))
  {
    errors := errors0;
    ghost var effects := Effects(records, decodes);
    for i := 0 to |records|
      invariant plan.Valid() && plan.header == old(plan.header)
      invariant plan.Holds(Replay(effects[..i]))
      invariant errors == errors0 + Reported(effects[..i])
    {
      assert effects[..i + 1][..i] == effects[..i];
      ghost var before := Replay(effects[..i]);
      assert Replay(effects[..i + 1]) == Applied(before, effects[i]);
      assert Reported(effects[..i + 1]) == if effects[i].Fail?
        then Reported(effects[..i]) + [(AtRecord(i), effects[i].error)] else Reported(effects[..i]);
      errors := ReadRecord(plan, i, records[i], decodes, errors, before);
    }
    assert effects[..|records|] == effects;
  }

  //// Properties of the record semantics ////

  /** An effect that stores into keyed table `k` under `id`. */
  predicate StoresAt(e: Effect, k: Kind, id: nat) {
    e.Store? && e.table == KeyedTable(k) && e.id == id
  }

  /** One effect leaves every keyed table other than its own unchanged, and inserts into its own. */
  lemma AppliedKeyed(t: Tables, e: Effect, k: Kind, id: nat)
    ensures StoresAt(e, k, id) ==> Lookup(Slots(Applied(t, e), k), id) == Some(e.row)
    ensures !StoresAt(e, k, id) ==> Lookup(Slots(Applied(t, e), k), id) == Lookup(Slots(t, k), id)
  {
  }

  /**
    In a keyed table, the row stored under an id is the row of the last
    record that stores under that id: a later duplicate overwrites.
  */
  lemma {:induction false} KeyedLastWins(effects: seq<Effect>, k: Kind, id: nat, j: nat)
    requires j < |effects| && StoresAt(effects[j], k, id)
    requires forall i :: j < i < |effects| ==> !StoresAt(effects[i], k, id)
    ensures Lookup(Slots(Replay(effects), k), id) == Some(effects[j].row)
  {
    var n := |effects| - 1;
    AppliedKeyed(Replay(effects[..n]), effects[n], k, id);
    if j < n {
      KeyedLastWins(effects[..n], k, id, j);
    }
  }

  /** A keyed id that no record stores under is a hole. */
  lemma {:induction false} KeyedNeverStored(effects: seq<Effect>, k: Kind, id: nat)
    requires forall i :: 0 <= i < |effects| ==> !StoresAt(effects[i], k, id)
    ensures Lookup(Slots(Replay(effects), k), id).None?
  {
    if |effects| > 0 {
      var n := |effects| - 1;
      AppliedKeyed(Replay(effects[..n]), effects[n], k, id);
      KeyedNeverStored(effects[..n], k, id);
    }
  }

  /** The school data is the row of the last decodable `W` record. */
  lemma {:induction false} SchuldatenLastWins(effects: seq<Effect>, j: nat)
    requires j < |effects| && effects[j].Store? && effects[j].table == Schuldaten
    requires forall i :: j < i < |effects| ==> !(effects[i].Store? && effects[i].table == Schuldaten)
    ensures Replay(effects).schuldaten == Some(effects[j].row)
  {
    var n := |effects| - 1;
    if j < n {
      SchuldatenLastWins(effects[..n], j);
    }
  }

  /**
    Lesson lines are only ever appended: the lines after a prefix of the
    records are a prefix of the lines after all of them.
  */
  lemma {:induction false} LehrerplanGrows(effects: seq<Effect>, i: nat)
    requires i <= |effects|
    ensures Replay(effects[..i]).stundenLehrerplan <= Replay(effects).stundenLehrerplan
    decreases |effects| - i
  {
    if i < |effects| {
      assert effects[..i + 1][..i] == effects[..i];
      LehrerplanGrows(effects, i + 1);
    } else {
      assert effects[..i] == effects;
    }
  }

  /** A decodable `PL` record's row appears among the lesson lines, appended when that record was read. */
  lemma LehrerplanRecord(effects: seq<Effect>, j: nat)
    requires j < |effects| && effects[j].Store? && effects[j].table == StundenLehrerplan
    ensures var lines := Replay(effects[..j + 1]).stundenLehrerplan;
      |lines| > 0 && lines[|lines| - 1] == effects[j].row
    ensures effects[j].row in Replay(effects).stundenLehrerplan
  {
    assert effects[..j + 1][..j] == effects[..j];
    LehrerplanGrows(effects, j + 1);
  }

  /** The storing effects, in order. */
  function Stores(effects: seq<Effect>): (r: seq<Effect>)
    ensures |r| <= |effects|
    ensures forall i :: 0 <= i < |r| ==> r[i].Store?
  {
    if |effects| == 0 then []
    else
      var n := |effects| - 1;
      if effects[n].Store? then Stores(effects[..n]) + [effects[n]] else Stores(effects[..n])
  }

  /**
    Only storing records matter to the tables: ignored records of unknown
    types and faulty records can be dropped without changing any table.
  */
  lemma {:induction false} OnlyStoresMatter(effects: seq<Effect>)
    ensures Replay(effects) == Replay(Stores(effects))
  {
    if |effects| > 0 {
      var n := |effects| - 1;
      OnlyStoresMatter(effects[..n]);
      var s := Stores(effects);
      if effects[n].Store? {
        assert s[..|s| - 1] == Stores(effects[..n]);
      }
    }
  }

  /** Errors that each name one of the first `n` records, in strictly ascending record order. */
  predicate AscendingBelow(errs: seq<(Position, ParseError)>, n: nat) {
    (forall k :: 0 <= k < |errs| ==> errs[k].0.AtRecord? && errs[k].0.index < n)
    && forall k1, k2 :: 0 <= k1 < k2 < |errs| ==> errs[k1].0.index < errs[k2].0.index
  }

  /** Every error names a record, and errors come in strictly ascending record order. */
  lemma {:induction false} ErrorsAscending(effects: seq<Effect>)
    ensures AscendingBelow(Reported(effects), |effects|)
  {
    if |effects| > 0 {
      var n := |effects| - 1;
      ErrorsAscending(effects[..n]);
    }
  }

  /** A faulty record is reported with its own error at its own index. */
  lemma {:induction false} FaultReported(effects: seq<Effect>, j: nat)
    requires j < |effects| && effects[j].Fail?
    ensures (AtRecord(j), effects[j].error) in Reported(effects)
  {
    var n := |effects| - 1;
    if j < n {
      FaultReported(effects[..n], j);
    }
  }

  /** Every reported error belongs to a faulty record and is that record's error. */
  lemma {:induction false} ReportedIsFault(effects: seq<Effect>, j: nat, e: ParseError)
    requires (AtRecord(j), e) in Reported(effects)
    ensures j < |effects| && effects[j] == Fail(e)
  {
    var n := |effects| - 1;
    if (AtRecord(j), e) in Reported(effects[..n]) {
      ReportedIsFault(effects[..n], j, e);
    }
  }
}
