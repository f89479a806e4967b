/**
 * How `executeQuery` makes a driver result serialisable: every row copied key by key with
 * dates, buffers and big integers turned into strings, the row count copied, and the
 * field descriptions cut down to their name and type.
 */
module QueryResult {
  import opened Wrappers
  import opened OrderedDict

  newtype byte = x: int | 0 <= x < 256

  /** A value the database driver puts into a row. */
  datatype Value =
    | Date(time: int)            // a JavaScript `Date`, by its time value in milliseconds
    | Buffer(bytes: seq<byte>)   // a Node `Buffer`
    | BigInt(n: int)             // a `bigint`
    | Str(text: string)
    | Num(x: real)
    | Bool(b: bool)
    | Null

  /** A value that needs no conversion. */
  predicate Plain(v: Value)
  {
    !v.Date? && !v.Buffer? && !v.BigInt?
  }

  // ----- Buffer.prototype.toString('hex') -----

  predicate IsLowerHexDigit(c: char)
  {
    '0' <= c <= '9' || 'a' <= c <= 'f'
  }

  function HexDigit(n: int): (c: char)
    requires 0 <= n < 16
    ensures IsLowerHexDigit(c)
  {
    if n < 10 then ('0' as int + n) as char else ('a' as int + n - 10) as char
  }

  /** The value of a lower-case hexadecimal digit. */
  function HexValue(c: char): Option<int>
  {
    if '0' <= c <= '9' then Some(c as int - '0' as int)
    else if 'a' <= c <= 'f' then Some(c as int - 'a' as int + 10)
    else None
  }

  /** Two lower-case digits per byte, high nibble first. */
  function Hex(bytes: seq<byte>): (s: string)
    ensures |s| == 2 * |bytes|
    ensures forall k :: 0 <= k < |s| ==> IsLowerHexDigit(s[k])
    decreases |bytes|
  {
    if bytes == [] then ""
    else [HexDigit(bytes[0] as int / 16), HexDigit(bytes[0] as int % 16)] + Hex(bytes[1..])
  }

  /** Reads back a hexadecimal text of whole bytes; `None` for anything else. */
  function Unhex(s: string): Option<seq<byte>>
    decreases |s|
  {
    if s == [] then Some([])
    else if |s| == 1 then None
    else
      match (HexValue(s[0]), HexValue(s[1]), Unhex(s[2..]))
      case (Some(hi), Some(lo), Some(rest)) => Some([(16 * hi + lo) as byte] + rest)
      case _ => None
  }

  lemma HexDigitValue(n: int)
    requires 0 <= n < 16
    ensures HexValue(HexDigit(n)) == Some(n)
  {
  }

  /** The hex text of a buffer determines the buffer. */
  lemma {:induction false} UnhexHex(bytes: seq<byte>)
    ensures Unhex(Hex(bytes)) == Some(bytes)
    decreases |bytes|
  {
    if bytes != [] {
      var b := bytes[0] as int;
      var s := Hex(bytes);
      HexDigitValue(b / 16);
      HexDigitValue(b % 16);
      assert s[2..] == Hex(bytes[1..]);
      UnhexHex(bytes[1..]);
      assert [bytes[0]] + bytes[1..] == bytes;
    }
  }

  // ----- BigInt.prototype.toString() -----

  predicate IsDigitChar(c: char)
  {
    '0' <= c <= '9'
  }

  predicate AllDigits(s: string)
  {
    forall k :: 0 <= k < |s| ==> IsDigitChar(s[k])
  }

  function DigitChar(d: int): (c: char)
    requires 0 <= d < 10
    ensures IsDigitChar(c)
  {
    ('0' as int + d) as char
  }

  /** The decimal digits of `n`: at least one, and no leading zero unless `n` is zero. */
  function Digits(n: nat): (s: string)
    ensures |s| >= 1 && AllDigits(s)
    ensures s[0] == '0' <==> n == 0
    ensures n == 0 ==> s == "0"
    decreases n
  {
    if n < 10 then [DigitChar(n)]
    else
      var init := Digits(n / 10);
      assert (init + [DigitChar(n % 10)])[0] == init[0];
      init + [DigitChar(n % 10)]
  }

  /** The number a run of decimal digits denotes. */
  function DigitsValue(s: string): nat
    requires AllDigits(s)
    decreases |s|
  {
    if s == [] then 0
    else 10 * DigitsValue(s[..|s| - 1]) + (s[|s| - 1] as int - '0' as int)
  }

  /** The text of a big integer: its digits, after a minus sign when it is negative. */
  function Decimal(n: int): (s: string)
    ensures |s| >= 1
  {
    if n < 0 then "-" + Digits(-n) else Digits(n)
  }

  /** Reads an optionally negative decimal numeral back; `None` for anything else. */
  function ParseDecimal(s: string): Option<int>
  {
    if |s| >= 2 && s[0] == '-' && AllDigits(s[1..]) then Some(-(DigitsValue(s[1..]) as int))
    else if |s| >= 1 && AllDigits(s) then Some(DigitsValue(s))
    else None
  }

  lemma {:induction false} DigitsRoundTrip(n: nat)
    ensures DigitsValue(Digits(n)) == n
    decreases n
  {
    if n >= 10 {
      var init := Digits(n / 10);
      var s := init + [DigitChar(n % 10)];
      assert s[..|s| - 1] == init;
      DigitsRoundTrip(n / 10);
    }
  }

  /** The text of a big integer determines it. */
  lemma DecimalRoundTrip(n: int)
    ensures ParseDecimal(Decimal(n)) == Some(n)
  {
    var s := Decimal(n);
    if n < 0 {
      var ds := Digits(-n);
      assert s[0] == '-' && s[1..] == ds;
      DigitsRoundTrip(-n);
    } else {
      assert IsDigitChar(s[0]);
      DigitsRoundTrip(n);
    }
  }

  /**
   * The text of a big integer is canonical: a minus sign exactly for a negative number,
   * then digits without a leading zero unless the magnitude is zero.
   */
  lemma DecimalCanonical(n: int)
    ensures Decimal(n)[0] == '-' <==> n < 0
    ensures var start := if n < 0 then 1 else 0;
      |Decimal(n)| > start && AllDigits(Decimal(n)[start..]) && (Decimal(n)[start] == '0' <==> n == 0)
  {
    var s := Decimal(n);
    if n < 0 {
      assert s[1..] == Digits(-n);
    } else {
      assert s[0..] == Digits(n);
    }
  }

  // ----- One value, one row -----

  /**
   * The conversion of one value: a date becomes `toIso` of it (`Date.prototype.toISOString`,
   * a parameter here), a buffer its hex text, a big integer its decimal text, and every
   * other value stays as it is.
   */
  function CleanValue(v: Value, toIso: int -> string): (r: Value)
    ensures Plain(r)
    ensures Plain(v) ==> r == v
  {
    match v
    case Date(t) => Str(toIso(t))
    case Buffer(bytes) => Str(Hex(bytes))
    case BigInt(n) => Str(Decimal(n))
    case _ => v
  }

  /**
   * A converted value keeps what it stood for: a date is the text `toIso` gives for its
   * time, a buffer's text reads back to its bytes, a big integer's text to its number.
   */
  lemma CleanValueReadsBack(v: Value, toIso: int -> string)
    ensures v.Date? ==> CleanValue(v, toIso) == Str(toIso(v.time))
    ensures v.Buffer? ==> CleanValue(v, toIso).Str? && Unhex(CleanValue(v, toIso).text) == Some(v.bytes)
    ensures v.BigInt? ==> CleanValue(v, toIso).Str? && ParseDecimal(CleanValue(v, toIso).text) == Some(v.n)
  {
    match v
    case Buffer(bytes) => UnhexHex(bytes);
    case BigInt(n) => DecimalRoundTrip(n);
    case _ =>
  }

  /** The row `cleanRow` becomes: the same keys in the same order, each value converted. */
  function Cleaned(row: Dict<Value>, toIso: int -> string): (r: Dict<Value>)
    decreases |row|
  {
    if row == [] then []
    else Cleaned(row[..|row| - 1], toIso) + [(row[|row| - 1].0, CleanValue(row[|row| - 1].1, toIso))]
  }

  /** Converting a value from the row or reading a value of the converted row agree. */
  lemma {:induction false} CleanedEntries(row: Dict<Value>, toIso: int -> string)
    ensures |Cleaned(row, toIso)| == |row|
    ensures Keys(Cleaned(row, toIso)) == Keys(row)
    ensures forall i :: 0 <= i < |row| ==> Cleaned(row, toIso)[i].1 == CleanValue(row[i].1, toIso)
    decreases |row|
  {
    if row != [] {
      var prefix := row[..|row| - 1];
      CleanedEntries(prefix, toIso);
      assert forall i :: 0 <= i < |prefix| ==> prefix[i] == row[i];
    }
  }

  /** `cleanRow[k]` is the converted `row[k]`, and is `undefined` exactly where `row[k]` is. */
  lemma CleanedLookup(row: Dict<Value>, toIso: int -> string, k: string)
    ensures Get(Cleaned(row, toIso), k) == match Get(row, k)
      case None => None
      case Some(v) => Some(CleanValue(v, toIso))
  {
    CleanedEntries(row, toIso);
    var clean := Cleaned(row, toIso);
    assert forall i :: 0 <= i < |row| ==> clean[i].0 == row[i].0;
    assert IndexOf(clean, k) == IndexOf(row, k) by { SameKeysSameIndex(clean, row, k); }
  }

  /** Two dictionaries with the same keys find a key at the same place. */
  lemma {:induction false} SameKeysSameIndex<U, V>(a: Dict<U>, b: Dict<V>, k: string)
    requires |a| == |b| && forall i :: 0 <= i < |a| ==> a[i].0 == b[i].0
    ensures IndexOf(a, k) == IndexOf(b, k)
    decreases |a|
  {
    if a != [] {
      SameKeysSameIndex(a[1..], b[1..], k);
    }
  }

  /** Cleaning a clean row changes nothing, so the result needs no second pass. */
  lemma {:induction false} CleanedIdempotent(row: Dict<Value>, toIso: int -> string)
    ensures Cleaned(Cleaned(row, toIso), toIso) == Cleaned(row, toIso)
    decreases |row|
  {
    if row != [] {
      var prefix, clean := row[..|row| - 1], Cleaned(row, toIso);
      CleanedIdempotent(prefix, toIso);
      CleanedEntries(prefix, toIso);
      assert clean[..|clean| - 1] == Cleaned(prefix, toIso);
    }
  }

  /** The `for…in` loop that fills `cleanRow`. */
  method CleanRow(row: Dict<Value>, toIso: int -> string) returns (cleanRow: Dict<Value>)
    requires DistinctKeys(row)
    ensures cleanRow == Cleaned(row, toIso)
    ensures DistinctKeys(cleanRow)
  {
    cleanRow := [];
    for i := 0 to |row|
      invariant cleanRow == Cleaned(row[..i], toIso)
      invariant DistinctKeys(cleanRow)
    {
      var key, value := row[i].0, row[i].1;
      CleanedEntries(row[..i], toIso);
      assert key !in Keys(cleanRow) by {
        assert forall j :: 0 <= j < i ==> Keys(cleanRow)[j] == row[j].0 != key;
      }
      PutNew(cleanRow, key, CleanValue(value, toIso));
      cleanRow := Put(cleanRow, key, CleanValue(value, toIso));
      assert row[..i + 1][..i] == row[..i];
    }
    assert row[..|row|] == row;
  }

  // ----- The whole result -----

  /** A field description as the driver gives it. */
  datatype Field = Field(
    name: string,
    tableID: int,
    columnID: int,
    dataTypeID: int,
    dataTypeSize: int,
    dataTypeModifier: int,
    format: string)

  datatype FieldSummary = FieldSummary(name: string, dataTypeID: int)

  datatype DriverResult = DriverResult(
    rows: seq<Dict<Value>>,
    rowCount: Option<int>,          // `null` for commands that report no count
    fields: Option<seq<Field>>)     // `undefined` when the driver gives none

  datatype SerializableResult = SerializableResult(
    rows: seq<Dict<Value>>,
    rowCount: Option<int>,
    fields: seq<FieldSummary>)

  /** `result.fields ? result.fields.map(...) : []`. */
  function FieldSummaries(fields: Option<seq<Field>>): (r: seq<FieldSummary>)
    ensures fields.None? ==> r == []
    ensures fields.Some? ==> |r| == |fields.value|
    ensures fields.Some? ==>
      forall i :: 0 <= i < |r| ==> r[i].name == fields.value[i].name && r[i].dataTypeID == fields.value[i].dataTypeID
  {
    match fields
    case None => []
    case Some(fs) => seq(|fs|, i requires 0 <= i < |fs| => FieldSummary(fs[i].name, fs[i].dataTypeID))
  }

  /** The serialisable result `executeQuery` returns for a driver result. */
  method Serialize(result: DriverResult, toIso: int -> string) returns (out: SerializableResult)
    requires forall i :: 0 <= i < |result.rows| ==> DistinctKeys(result.rows[i])
    ensures |out.rows| == |result.rows|
    ensures forall i :: 0 <= i < |out.rows| ==> out.rows[i] == Cleaned(result.rows[i], toIso)
    ensures out.rowCount == result.rowCount
    ensures out.fields == FieldSummaries(result.fields)
  {
    var rows := [];
    for i := 0 to |result.rows|
      invariant |rows| == i
      invariant forall j :: 0 <= j < i ==> rows[j] == Cleaned(result.rows[j], toIso)
    {
      var cleanRow := CleanRow(result.rows[i], toIso);
      rows := rows + [cleanRow];
    }
    out := SerializableResult(rows, result.rowCount, FieldSummaries(result.fields));
  }
}
