// The post-build step that merges bootloader, partition table, application
// and filesystem image into one flashable file (scripts/script_build_unified_binary.py).
// The build host, the filesystem and the subprocess are parameters: `exists`
// answers os.path.exists, `records` is what csv.reader yields for the
// partitions file, and a tool's exit status is passed in.

module UnifiedBinary {
  import opened Wrappers
  import opened Ascii
  import opened PyText
  import opened Seqs

  /** Exceptions the script lets escape; each aborts the post-build action. */
  datatype ScriptError =
    | PartitionsNotSet                  // FileNotFoundError: build.partitions is unset or empty
    | PartitionsNotFound(path: string)  // FileNotFoundError: the CSV path does not exist
    | BadHexKey(text: string)           // ValueError from int(x, 16) while sorting app offsets
    | NotIterable                       // TypeError from list(raw) on a truthy scalar

  type Pair = (string, string)

  // ---- _read_partitions_csv ----------------------------------------------------

  /** A row as csv.reader yields it: any number of fields. */
  type Record = seq<string>

  /** Empty rows and comment rows are dropped. */
  predicate Skipped(rec: Record) { rec == [] || StartsWith(Strip(rec[0]), "#") }

  /** `[c.strip() for c in (row + [""] * (6 - len(row)))[:6]]` */
  function SixFields(rec: Record): (r: seq<string>)
    ensures |r| == 6
    ensures forall j :: 0 <= j < 6 ==> r[j] == Strip(if j < |rec| then rec[j] else "")
  {
    seq(6, j requires 0 <= j < 6 => Strip(if j < |rec| then rec[j] else ""))
  }

  /** The rows the reader keeps, in file order. */
  function KeptRows(recs: seq<Record>): seq<seq<string>>
  {
    if recs == [] then []
    else
      var last := recs[|recs| - 1];
      KeptRows(recs[..|recs| - 1]) + (if Skipped(last) then [] else [SixFields(last)])
  }

  predicate Trimmed(s: string) { Strip(s) == s }

  /** Rows of six trimmed fields, the shape `find_offsets_from_csv` unpacks. */
  predicate PartitionTable(rows: seq<seq<string>>)
  {
    forall i :: 0 <= i < |rows| ==> |rows[i]| == 6 && forall j :: 0 <= j < 6 ==> Trimmed(rows[i][j])
  }

  lemma {:induction false} KeptRowsShape(recs: seq<Record>)
    ensures PartitionTable(KeptRows(recs))
    ensures |KeptRows(recs)| <= |recs|
    decreases |recs|
  {
    if recs != [] {
      var front, last := recs[..|recs| - 1], recs[|recs| - 1];
      KeptRowsShape(front);
      if !Skipped(last) {
        var row := SixFields(last);
        forall j | 0 <= j < 6 ensures Trimmed(row[j]) {
          StripIdempotent(if j < |last| then last[j] else "");
        }
        TableAppend(KeptRows(front), row);
      } else {
        assert KeptRows(recs) == KeptRows(front) + [];
      }
    }
  }

  lemma TableAppend(rows: seq<seq<string>>, row: seq<string>)
    requires PartitionTable(rows) && |row| == 6 && forall j :: 0 <= j < 6 ==> Trimmed(row[j])
    ensures PartitionTable(rows + [row])
  {
    var all := rows + [row];
    forall i | 0 <= i < |all| ensures |all[i]| == 6 && forall j :: 0 <= j < 6 ==> Trimmed(all[i][j]) {
      if i < |rows| {
        assert all[i] == rows[i];
      }
    }
  }

  /** Reading two parts of a file keeps the rows of each, in order. */
  lemma {:induction false} KeptRowsAppend(a: seq<Record>, b: seq<Record>)
    ensures KeptRows(a + b) == KeptRows(a) + KeptRows(b)
    decreases |b|
  {
    if b == [] {
      AppendEmpty(a);
      AppendEmpty(KeptRows(a));
    } else {
      var b', last := b[..|b| - 1], b[|b| - 1];
      var tail := if Skipped(last) then [] else [SixFields(last)];
      AppendInit(a, b);
      KeptRowsAppend(a, b');
      AppendAssoc(KeptRows(a), KeptRows(b'), tail);
    }
  }

  /** A single row is kept, as its six trimmed fields, exactly when it is not blank or a comment. */
  lemma KeptRowsSingle(rec: Record)
    ensures KeptRows([rec]) == if Skipped(rec) then [] else [SixFields(rec)]
  {
    var one := [rec];
    assert one[..0] == [] && one[0] == rec;
    var tail := if Skipped(rec) then [] else [SixFields(rec)];
    assert KeptRows(one) == KeptRows([]) + tail;
    assert KeptRows([]) + tail == tail;
  }

  function CsvPath(setting: string, projectDir: string): string
  {
    if IsAbs(setting) then setting else PathJoin(projectDir, setting)
  }

  /** What `_read_partitions_csv` returns or raises. */
  function PartitionsResult(setting: Option<string>, projectDir: string, pathExists: string -> bool,
                            records: seq<Record>): Result<seq<seq<string>>, ScriptError>
  {
    if setting.None? || setting.value == "" then Err(PartitionsNotSet)
    else if !pathExists(CsvPath(setting.value, projectDir)) then Err(PartitionsNotFound(CsvPath(setting.value, projectDir)))
    else Ok(KeptRows(records))
  }

  /** `_read_partitions_csv`: the setting, the existence test, then the row loop. */
  method ReadPartitionsCsv(setting: Option<string>, projectDir: string, pathExists: string -> bool,
                           records: seq<Record>)
    returns (r: Result<seq<seq<string>>, ScriptError>)
    ensures (setting.None? || setting.value == "") ==> r == Err(PartitionsNotSet)
    ensures setting.Some? && setting.value != "" && !pathExists(CsvPath(setting.value, projectDir))
            ==> r == Err(PartitionsNotFound(CsvPath(setting.value, projectDir)))
    ensures setting.Some? && setting.value != "" && pathExists(CsvPath(setting.value, projectDir))
            ==> r == Ok(KeptRows(records))
  {
    if setting.None? || setting.value == "" {
      return Err(PartitionsNotSet);
    }
    var path := CsvPath(setting.value, projectDir);
    if !pathExists(path) {
      return Err(PartitionsNotFound(path));
    }
    var rows: seq<seq<string>> := [];
    var i := 0;
    while i < |records|
      invariant 0 <= i <= |records|
      invariant rows == KeptRows(records[..i])
    {
      var row := records[i];
      TakeSnoc(records, i);
      if !Skipped(row) {
        rows := rows + [SixFields(row)];
      }
      i := i + 1;
    }
    TakeAll(records);
    return Ok(rows);
  }

  // ---- _hexify ------------------------------------------------------------------

  /** The second half of `_hexify`, on text already lower-cased and stripped. */
  function Rendered(t: string): string
  {
    if StartsWith(t, "0x") then t
    else match IntBase0(t)
      case Some(n) => PyHex(n)
      case None => t
  }

  /** `_hexify`: lower-case and strip, keep "0x…" text, re-render what int(v, 0) accepts. */
  function Hexify(v: string): string
  {
    Rendered(Strip(Lower(v)))
  }

  lemma LowerAppend(a: string, b: string)
    ensures Lower(a + b) == Lower(a) + Lower(b)
  {
  }

  lemma NoSpaceAppend(a: string, b: string)
    requires NoSpace(a) && NoSpace(b)
    ensures NoSpace(a + b)
  {
  }

  /** Python's hex rendering is lower-case text without whitespace. */
  lemma PyHexNormal(n: int)
    ensures NoSpace(PyHex(n)) && Lower(PyHex(n)) == PyHex(n)
  {
    var m: nat := if n < 0 then -n else n;
    HexDigitsWellFormed(m);
    var p := if n < 0 then "-0x" else "0x";
    assert PyHex(n) == p + HexDigits(m);
    HexPrefixNormal(n < 0);
    LowerAppend(p, HexDigits(m));
    NoSpaceAppend(p, HexDigits(m));
  }

  lemma HexPrefixNormal(negative: bool)
    ensures var p := if negative then "-0x" else "0x"; Lower(p) == p && NoSpace(p)
  {
    if negative {
      assert Lower("-0x") == "-0x";
    } else {
      assert Lower("0x") == "0x";
    }
  }

  lemma HexifyKeptIdempotent(v: string)
    requires Hexify(v) == Strip(Lower(v))
    ensures Hexify(Hexify(v)) == Hexify(v)
  {
    StripLowerFixed(v);
  }

  lemma HexifyRenderedIdempotent(v: string, n: int)
    requires Hexify(v) == PyHex(n)
    ensures Hexify(Hexify(v)) == Hexify(v)
  {
    var h := PyHex(n);
    PyHexParses(n);
    PyHexNormal(n);
    assert Strip(Lower(h)) == h;
  }

  /** Whatever `_hexify` returns is already in its own normal form. */
  lemma HexifyIdempotent(v: string)
    ensures Hexify(Hexify(v)) == Hexify(v)
  {
    var t := Strip(Lower(v));
    if StartsWith(t, "0x") || IntBase0(t).None? {
      HexifyKeptIdempotent(v);
    } else {
      HexifyRenderedIdempotent(v, IntBase0(t).value);
    }
  }

  lemma DecimalNormal(n: nat)
    ensures NoSpace(Decimal(n)) && Lower(Decimal(n)) == Decimal(n) && !StartsWith(Decimal(n), "0x")
  {
    var d := Decimal(n);
    if |d| >= 2 { assert IsDigit(d[1]); }
  }

  /** A decimal offset such as "65536" becomes "0x10000". */
  lemma HexifyDecimal(n: nat)
    ensures Hexify(Decimal(n)) == PyHex(n)
  {
    var d := Decimal(n);
    DecimalNormal(n);
    assert Strip(Lower(d)) == d;
    DecimalParses(n);
    assert Rendered(d) == PyHex(n);
  }

  /** Text already starting with "0x" (after lower-casing and stripping) is kept verbatim. */
  lemma HexifyKeepsHexText(v: string)
    requires StartsWith(Strip(Lower(v)), "0x")
    ensures Hexify(v) == Strip(Lower(v))
  {
  }

  /** Text that int(v, 0) refuses is returned lower-cased and stripped. */
  lemma HexifyUnparseable(v: string)
    requires IntBase0(Strip(Lower(v))).None?
    ensures Hexify(v) == Strip(Lower(v))
  {
  }

  /** The empty offset cell stays empty, so it is falsy for the caller. */
  lemma HexifyEmpty()
    ensures Hexify("") == ""
  {
    assert Lower("") == "";
    assert Strip("") == "";
  }

  // ---- find_offsets_from_csv ---------------------------------------------------------

  predicate IsAppRow(row: seq<string>) requires |row| == 6 { Lower(row[1]) == "app" }

  predicate IsCanonicalApp(row: seq<string>)
    requires |row| == 6
  {
    IsAppRow(row) && (Lower(row[2]) == "factory" || Lower(row[2]) == "app0")
  }

  predicate IsFsRow(row: seq<string>)
    requires |row| == 6
  {
    Lower(row[1]) == "data" && (Lower(row[2]) == "spiffs" || Lower(row[2]) == "littlefs" || Lower(row[2]) == "fatfs")
  }

  predicate Rows6(rows: seq<seq<string>>) { forall i :: 0 <= i < |rows| ==> |rows[i]| == 6 }

  /** The app offset the scan leaves behind: that of the last canonical app row. */
  function ScanApp(rows: seq<seq<string>>): Option<string>
    requires Rows6(rows)
  {
    if rows == [] then None
    else if IsCanonicalApp(rows[|rows| - 1]) then Some(Hexify(rows[|rows| - 1][3]))
    else ScanApp(rows[..|rows| - 1])
  }

  /** The filesystem (offset, kind) the scan leaves behind: that of the last data row of a filesystem subtype. */
  function ScanFs(rows: seq<seq<string>>): Option<Pair>
    requires Rows6(rows)
  {
    if rows == [] then None
    else if IsFsRow(rows[|rows| - 1]) then Some((Hexify(rows[|rows| - 1][3]), Lower(rows[|rows| - 1][2])))
    else ScanFs(rows[..|rows| - 1])
  }

  /** The scan finds no app offset exactly when no row is a canonical app row. */
  lemma {:induction false} ScanAppNone(rows: seq<seq<string>>)
    requires Rows6(rows)
    ensures ScanApp(rows).None? <==> forall i :: 0 <= i < |rows| ==> !IsCanonicalApp(rows[i])
    decreases |rows|
  {
    if rows != [] {
      var pre := rows[..|rows| - 1];
      assert forall i :: 0 <= i < |pre| ==> pre[i] == rows[i];
      ScanAppNone(pre);
    }
  }

  /** The last canonical app row decides the app offset, whatever came before it. */
  lemma {:induction false} ScanAppLast(rows: seq<seq<string>>, i: nat)
    requires Rows6(rows) && i < |rows| && IsCanonicalApp(rows[i])
    requires forall j :: i < j < |rows| ==> !IsCanonicalApp(rows[j])
    ensures ScanApp(rows) == Some(Hexify(rows[i][3]))
    decreases |rows|
  {
    if i < |rows| - 1 {
      var pre := rows[..|rows| - 1];
      assert forall j :: 0 <= j < |pre| ==> pre[j] == rows[j];
      ScanAppLast(pre, i);
    }
  }

  /** The scan finds no filesystem row exactly when there is none. */
  lemma {:induction false} ScanFsNone(rows: seq<seq<string>>)
    requires Rows6(rows)
    ensures ScanFs(rows).None? <==> forall i :: 0 <= i < |rows| ==> !IsFsRow(rows[i])
    decreases |rows|
  {
    if rows != [] {
      var pre := rows[..|rows| - 1];
      assert forall i :: 0 <= i < |pre| ==> pre[i] == rows[i];
      ScanFsNone(pre);
    }
  }

  /** The last filesystem row decides the offset and, lower-cased, the kind. */
  lemma {:induction false} ScanFsLast(rows: seq<seq<string>>, i: nat)
    requires Rows6(rows) && i < |rows| && IsFsRow(rows[i])
    requires forall j :: i < j < |rows| ==> !IsFsRow(rows[j])
    ensures ScanFs(rows) == Some((Hexify(rows[i][3]), Lower(rows[i][2])))
    decreases |rows|
  {
    if i < |rows| - 1 {
      var pre := rows[..|rows| - 1];
      assert forall j :: 0 <= j < |pre| ==> pre[j] == rows[j];
      ScanFsLast(pre, i);
    }
  }

  /** `[_hexify(o) for n,t,s,o,sz,fl in rows if t.lower() == "app" and o]` */
  function AppCandidates(rows: seq<seq<string>>): seq<string>
    requires Rows6(rows)
  {
    if rows == [] then []
    else
      var last := rows[|rows| - 1];
      AppCandidates(rows[..|rows| - 1]) + (if IsAppRow(last) && last[3] != "" then [Hexify(last[3])] else [])
  }

  predicate AllHex(cands: seq<string>) { forall i :: 0 <= i < |cands| ==> StartsWith(cands[i], "0x") }

  /** The sort keys `int(x, 16)`, computed in list order; the first bad one raises. */
  function HexKeys(cands: seq<string>): (r: Result<seq<nat>, ScriptError>)
    requires AllHex(cands)
    ensures r.Ok? ==> KeysOf(cands, r.value)
    ensures r.Err? <==> exists i :: 0 <= i < |cands| && IntBase16Prefixed(cands[i]).None?
  {
    if cands == [] then Ok([])
    else
      var tail := cands[1..];
      assert AllHex(tail) by { HexTail(cands); }
      match IntBase16Prefixed(cands[0])
      case None => Err(BadHexKey(cands[0]))
      case Some(k) =>
        match HexKeys(tail)
        case Err(e) => HexKeysBadTail(cands); Err(e)
        case Ok(ks) => HexKeysCons(cands, k, ks); Ok([k] + ks)
  }

  /** `keys` holds `int(x, 16)` of every candidate, in order. */
  predicate KeysOf(cands: seq<string>, keys: seq<nat>)
    requires AllHex(cands)
  {
    |keys| == |cands| && forall i :: 0 <= i < |cands| ==> IntBase16Prefixed(cands[i]) == Some(keys[i])
  }

  lemma HexTail(cands: seq<string>)
    requires AllHex(cands) && cands != []
    ensures AllHex(cands[1..])
  {
    var tail := cands[1..];
    forall i | 0 <= i < |tail| ensures StartsWith(tail[i], "0x") {
      assert tail[i] == cands[i + 1];
    }
  }

  lemma HexKeysCons(cands: seq<string>, k: nat, ks: seq<nat>)
    requires AllHex(cands) && cands != [] && AllHex(cands[1..])
    requires IntBase16Prefixed(cands[0]) == Some(k) && KeysOf(cands[1..], ks)
    ensures KeysOf(cands, [k] + ks)
    ensures !exists i :: 0 <= i < |cands| && IntBase16Prefixed(cands[i]).None?
  {
    var keys, tail := [k] + ks, cands[1..];
    assert KeysOf(cands, keys) by {
      forall i | 0 <= i < |cands| ensures IntBase16Prefixed(cands[i]) == Some(keys[i]) {
        if i > 0 {
          assert cands[i] == tail[i - 1] && keys[i] == ks[i - 1];
        }
      }
    }
    assert forall i :: 0 <= i < |cands| ==> IntBase16Prefixed(cands[i]).Some?;
  }

  lemma HexKeysBadTail(cands: seq<string>)
    requires AllHex(cands) && cands != [] && AllHex(cands[1..])
    requires exists i :: 0 <= i < |cands[1..]| && IntBase16Prefixed(cands[1..][i]).None?
    ensures exists i :: 0 <= i < |cands| && IntBase16Prefixed(cands[i]).None?
  {
    var tail := cands[1..];
    var i :| 0 <= i < |tail| && IntBase16Prefixed(tail[i]).None?;
    assert cands[i + 1] == tail[i];
  }

  /** Index of the first smallest key: what a stable sort puts first. */
  function FirstMin(keys: seq<nat>): (k: nat)
    requires |keys| > 0
    ensures k < |keys|
    ensures forall j :: 0 <= j < |keys| ==> keys[k] <= keys[j]
    ensures forall j :: 0 <= j < k ==> keys[j] > keys[k]
  {
    if |keys| == 1 then 0
    else
      var k := FirstMin(keys[1..]);
      if keys[0] <= keys[k + 1] then 0 else k + 1
  }

  /** The fallback choice among the candidate app offsets. */
  function Fallback(cands: seq<string>): Result<Option<string>, ScriptError>
  {
    if cands == [] then Ok(None)
    else if AllHex(cands) then
      match HexKeys(cands)
      case Err(e) => Err(e)
      case Ok(keys) => Ok(Some(cands[FirstMin(keys)]))
    else Ok(Some(cands[0]))
  }

  /** With hexadecimal candidates the fallback takes the numerically smallest, the first of equals. */
  lemma FallbackSmallest(cands: seq<string>)
    requires cands != [] && AllHex(cands)
    requires forall i :: 0 <= i < |cands| ==> IntBase16Prefixed(cands[i]).Some?
    ensures Fallback(cands).Ok? && Fallback(cands).value.Some?
    ensures var c := Fallback(cands).value.value;
      exists k :: 0 <= k < |cands| && c == cands[k]
        && (forall j :: 0 <= j < |cands| ==> IntBase16Prefixed(cands[k]).value <= IntBase16Prefixed(cands[j]).value)
        && (forall j :: 0 <= j < k ==> IntBase16Prefixed(cands[j]).value > IntBase16Prefixed(cands[k]).value)
  {
    var keys := HexKeys(cands).value;
    var k := FirstMin(keys);
    assert cands[k] == Fallback(cands).value.value;
  }

  /** A candidate that is not "0x…" (a negative or unparsed offset) makes the fallback take the first. */
  lemma FallbackFirst(cands: seq<string>)
    requires cands != [] && !AllHex(cands)
    ensures Fallback(cands) == Ok(Some(cands[0]))
  {
  }

  datatype Offsets = Offsets(app: Option<string>, fs: Option<string>, kind: Option<string>)

  /** Python truthiness of an optional string: neither None nor "". */
  predicate Truthy(o: Option<string>) { o.Some? && o.value != "" }

  /** What `find_offsets_from_csv` returns for a table that has been read. */
  function OffsetsOf(rows: seq<seq<string>>): Result<Offsets, ScriptError>
    requires Rows6(rows)
  {
    var app := ScanApp(rows);
    var fs := ScanFs(rows);
    var fsOff := if fs.Some? then Some(fs.value.0) else None;
    var kind := if fs.Some? then Some(fs.value.1) else None;
    if Truthy(app) then Ok(Offsets(app, fsOff, kind))
    else match Fallback(AppCandidates(rows))
      case Err(e) => Err(e)
      case Ok(choice) => Ok(Offsets(if choice.Some? then choice else app, fsOff, kind))
  }

  /** A canonical row with an offset decides the app offset; the fallback is never consulted. */
  lemma CanonicalRowWins(rows: seq<seq<string>>)
    requires Rows6(rows) && Truthy(ScanApp(rows))
    ensures OffsetsOf(rows).Ok? && OffsetsOf(rows).value.app == ScanApp(rows)
  {
  }

  /** Scan loop of `find_offsets_from_csv`: the last match overwrites earlier ones. */
  method ScanRows(rows: seq<seq<string>>) returns (app: Option<string>, fs: Option<string>, kind: Option<string>)
    requires Rows6(rows)
    ensures app == ScanApp(rows)
    ensures ScanFs(rows).None? ==> fs.None? && kind.None?
    ensures ScanFs(rows).Some? ==> fs == Some(ScanFs(rows).value.0) && kind == Some(ScanFs(rows).value.1)
  {
    app, fs, kind := None, None, None;
    var i := 0;
    while i < |rows|
      invariant 0 <= i <= |rows|
      invariant Rows6(rows[..i])
      invariant app == ScanApp(rows[..i])
      invariant ScanFs(rows[..i]).None? ==> fs.None? && kind.None?
      invariant ScanFs(rows[..i]).Some? ==> fs == Some(ScanFs(rows[..i]).value.0) && kind == Some(ScanFs(rows[..i]).value.1)
    {
      var row := rows[i];
      TakeSnoc(rows, i);
      assert rows[..i + 1][i] == row;
      if IsCanonicalApp(row) {
        app := Some(Hexify(row[3]));
      }
      if IsFsRow(row) {
        fs := Some(Hexify(row[3]));
        kind := Some(Lower(row[2]));
      }
      i := i + 1;
    }
    TakeAll(rows);
  }

  /** What `find_offsets_from_csv` returns or raises. */
  function OffsetsFor(setting: Option<string>, projectDir: string, pathExists: string -> bool,
                      records: seq<Record>): Result<Offsets, ScriptError>
  {
    match PartitionsResult(setting, projectDir, pathExists, records)
    case Err(e) => Err(e)
    case Ok(rows) => KeptRowsShape(records); OffsetsOf(rows)
  }

  /** `find_offsets_from_csv`: read the table, scan it, then fall back if no app offset was set. */
  method FindOffsetsFromCsv(setting: Option<string>, projectDir: string, pathExists: string -> bool,
                            records: seq<Record>)
    returns (r: Result<Offsets, ScriptError>)
    ensures (setting.None? || setting.value == "") ==> r == Err(PartitionsNotSet)
    ensures setting.Some? && setting.value != "" && !pathExists(CsvPath(setting.value, projectDir))
            ==> r == Err(PartitionsNotFound(CsvPath(setting.value, projectDir)))
    ensures r == OffsetsFor(setting, projectDir, pathExists, records)
  {
    var read := ReadPartitionsCsv(setting, projectDir, pathExists, records);
    if read.Err? {
      return Err(read.error);
    }
    var rows := read.value;
    KeptRowsShape(records);
    var app, fs, kind := ScanRows(rows);
    if !Truthy(app) {
      var cands := AppCandidates(rows);
      var choice := Fallback(cands);
      if choice.Err? {
        return Err(choice.error);
      }
      if choice.value.Some? {
        app := choice.value;
      }
    }
    return Ok(Offsets(app, fs, kind));
  }

  // ---- resolve_fs_image -----------------------------------------------------------

  /** The candidate image files for a filesystem kind, in the order they are tried. */
  function FsCandidates(kind: Option<string>, buildDir: string): seq<string>
  {
    if kind == Some("spiffs") then [PathJoin(buildDir, "spiffs.bin")]
    else if kind == Some("littlefs") then [PathJoin(buildDir, "littlefs.bin")]
    else [PathJoin(buildDir, "spiffs.bin"), PathJoin(buildDir, "littlefs.bin")]
  }

  function FirstExisting(paths: seq<string>, pathExists: string -> bool): (r: Option<string>)
    ensures r.None? <==> forall i :: 0 <= i < |paths| ==> !pathExists(paths[i])
    ensures r.Some? ==> exists k :: (0 <= k < |paths| && r.value == paths[k] && pathExists(paths[k])
      && forall j :: 0 <= j < k ==> !pathExists(paths[j]))
  {
    if paths == [] then None
    else if pathExists(paths[0]) then Some(paths[0])
    else
      var r := FirstExisting(paths[1..], pathExists);
      assert forall i :: 1 <= i < |paths| ==> paths[i] == paths[1..][i - 1];
      if r.Some? then
        var k :| 0 <= k < |paths| - 1 && r.value == paths[1..][k] && pathExists(paths[1..][k])
          && forall j :: 0 <= j < k ==> !pathExists(paths[1..][j]);
        assert r.value == paths[k + 1];
        r
      else r
  }

  /** `resolve_fs_image` */
  function ResolveFsImage(kind: Option<string>, buildDir: string, pathExists: string -> bool): Option<string>
  {
    FirstExisting(FsCandidates(kind, buildDir), pathExists)
  }

  /** Which file each filesystem kind may use. */
  lemma ResolveFsImageChoice(kind: Option<string>, buildDir: string, pathExists: string -> bool)
    ensures var spiffs, littlefs := PathJoin(buildDir, "spiffs.bin"), PathJoin(buildDir, "littlefs.bin");
      var r := ResolveFsImage(kind, buildDir, pathExists);
      && (kind == Some("spiffs") ==> r == (if pathExists(spiffs) then Some(spiffs) else None))
      && (kind == Some("littlefs") ==> r == (if pathExists(littlefs) then Some(littlefs) else None))
      && (kind != Some("spiffs") && kind != Some("littlefs") ==>
            r == (if pathExists(spiffs) then Some(spiffs) else if pathExists(littlefs) then Some(littlefs) else None))
  {
    var spiffs, littlefs := PathJoin(buildDir, "spiffs.bin"), PathJoin(buildDir, "littlefs.bin");
    if kind != Some("spiffs") && kind != Some("littlefs") {
      assert FsCandidates(kind, buildDir) == [spiffs, littlefs];
      assert [spiffs, littlefs][1..] == [littlefs];
      assert [littlefs][1..] == [];
      assert FirstExisting([littlefs], pathExists) == if pathExists(littlefs) then Some(littlefs) else None;
    } else {
      assert [spiffs][1..] == [] && [littlefs][1..] == [];
    }
  }

  // ---- normalize_extra_images --------------------------------------------------------

  /** The Python values FLASH_EXTRA_IMAGES can hold. */
  datatype PyValue =
    | PyNone
    | PyBool(b: bool)
    | PyInt(i: int)
    | PyStr(s: string)
    | PyList(items: seq<PyValue>)
    | PyTuple(items: seq<PyValue>)

  predicate IsTruthy(v: PyValue)
  {
    match v
    case PyNone => false
    case PyBool(b) => b
    case PyInt(i) => i != 0
    case PyStr(s) => s != ""
    case PyList(items) => items != []
    case PyTuple(items) => items != []
  }

  function JoinComma(parts: seq<string>): string
  {
    if parts == [] then "" else if |parts| == 1 then parts[0] else parts[0] + ", " + JoinComma(parts[1..])
  }

  function IntText(i: int): string
  {
    if i < 0 then "-" + Decimal(-i) else Decimal(i)
  }

  /** Python `str(v)`. */
  function Str(v: PyValue): string
    decreases v, 0
  {
    match v
    case PyNone => "None"
    case PyBool(b) => if b then "True" else "False"
    case PyInt(i) => IntText(i)
    case PyStr(s) => s
    case PyList(items) => "[" + JoinComma(seq(|items|, k requires 0 <= k < |items| => Repr(items[k]))) + "]"
    case PyTuple(items) =>
      "(" + JoinComma(seq(|items|, k requires 0 <= k < |items| => Repr(items[k])))
        + (if |items| == 1 then ",)" else ")")
  }

  /** Python `repr(v)`; strings are shown in single quotes without escaping. */
  function Repr(v: PyValue): string
    decreases v, 1
  {
    match v
    case PyStr(s) => "'" + s + "'"
    case _ => Str(v)
  }

  /** `range(0, len(toks) - 1, 2)` pairing: consecutive tokens, a trailing odd one dropped. */
  function PairUp(toks: seq<string>): (ps: seq<Pair>)
    ensures |ps| == |toks| / 2
  {
    seq(|toks| / 2, k requires 0 <= k < |toks| / 2 => (toks[2 * k], toks[2 * k + 1]))
  }

  predicate IsSeq(v: PyValue) { v.PyList? || v.PyTuple? }

  predicate AllPairs(items: seq<PyValue>) { forall i :: 0 <= i < |items| ==> IsSeq(items[i]) && |items[i].items| == 2 }

  predicate AllStrings(items: seq<PyValue>) { forall i :: 0 <= i < |items| ==> items[i].PyStr? }

  function PassThrough(items: seq<PyValue>): (ps: seq<Pair>)
    requires AllPairs(items)
    ensures |ps| == |items|
  {
    seq(|items|, k requires 0 <= k < |items| => (Str(items[k].items[0]), Str(items[k].items[1])))
  }

  /** Pairs made directly from elements that split into exactly two tokens. */
  function DirectPairs(items: seq<PyValue>): seq<Pair>
    requires AllStrings(items)
  {
    if items == [] then []
    else
      var ws := Words(items[|items| - 1].s);
      DirectPairs(items[..|items| - 1]) + (if |ws| == 2 then [(ws[0], ws[1])] else [])
  }

  /** Tokens of the other elements, buffered in order. */
  function BufferedTokens(items: seq<PyValue>): seq<string>
    requires AllStrings(items)
  {
    if items == [] then []
    else
      var ws := Words(items[|items| - 1].s);
      BufferedTokens(items[..|items| - 1]) + (if |ws| == 2 then [] else ws)
  }

  /** The fallback flattening: one level, everything through `str`. */
  function FlattenOnce(items: seq<PyValue>): seq<string>
  {
    if items == [] then []
    else
      var x := items[|items| - 1];
      FlattenOnce(items[..|items| - 1])
        + (if IsSeq(x) then seq(|x.items|, k requires 0 <= k < |x.items| => Str(x.items[k])) else [Str(x)])
  }

  /** What `normalize_extra_images` returns, or the TypeError of `list(raw)`. */
  function Normalize(raw: PyValue): Result<seq<Pair>, ScriptError>
  {
    if !IsTruthy(raw) then Ok([])
    else match raw
      case PyStr(s) => Ok(PairUp(Words(s)))
      case PyList(items) => Ok(NormalizeItems(items))
      case PyTuple(items) => Ok(NormalizeItems(items))
      case _ => Err(NotIterable)
  }

  function NormalizeItems(items: seq<PyValue>): seq<Pair>
  {
    if AllPairs(items) then PassThrough(items)
    else if AllStrings(items) then DirectPairs(items) + PairUp(BufferedTokens(items))
    else PairUp(FlattenOnce(items))
  }

  /** The pairing loop `for i in range(0, len(toks) - 1, 2): pairs.append(...)`. */
  method AppendPairs(pairs: seq<Pair>, toks: seq<string>) returns (r: seq<Pair>)
    ensures r == pairs + PairUp(toks)
  {
    r := pairs;
    var i := 0;
    while i + 1 < |toks|
      invariant i % 2 == 0 && i <= |toks|
      invariant r == pairs + PairUp(toks[..i])
    {
      assert PairUp(toks[..i + 2]) == PairUp(toks[..i]) + [(toks[i], toks[i + 1])];
      r := r + [(toks[i], toks[i + 1])];
      i := i + 2;
    }
    assert PairUp(toks[..i]) == PairUp(toks);
  }

  /** The loop over 2-element lists and tuples. */
  method PassThroughLoop(items: seq<PyValue>) returns (pairs: seq<Pair>)
    requires AllPairs(items)
    ensures pairs == PassThrough(items)
  {
    pairs := [];
    var i := 0;
    while i < |items|
      invariant 0 <= i <= |items|
      invariant pairs == PassThrough(items)[..i]
    {
      pairs := pairs + [(Str(items[i].items[0]), Str(items[i].items[1]))];
      i := i + 1;
    }
    assert PassThrough(items)[..i] == PassThrough(items);
  }

  /** The loop over a list of strings: two-token elements pair at once, the rest is buffered. */
  method StringListLoop(items: seq<PyValue>) returns (pairs: seq<Pair>)
    requires AllStrings(items)
    ensures pairs == DirectPairs(items) + PairUp(BufferedTokens(items))
  {
    pairs := [];
    var flat: seq<string> := [];
    var i := 0;
    while i < |items|
      invariant 0 <= i <= |items|
      invariant pairs == DirectPairs(items[..i]) && flat == BufferedTokens(items[..i])
    {
      assert items[..i + 1][..i] == items[..i];
      var xs := Words(items[i].s);
      if |xs| == 2 {
        pairs := pairs + [(xs[0], xs[1])];
      } else {
        flat := flat + xs;
      }
      i := i + 1;
    }
    assert items[..i] == items;
    pairs := AppendPairs(pairs, flat);
  }

  /** The fallback loop that flattens one level through `str`. */
  method FlattenLoop(items: seq<PyValue>) returns (flat: seq<string>)
    ensures flat == FlattenOnce(items)
  {
    flat := [];
    var i := 0;
    while i < |items|
      invariant 0 <= i <= |items|
      invariant flat == FlattenOnce(items[..i])
    {
      assert items[..i + 1][..i] == items[..i];
      var x := items[i];
      if IsSeq(x) {
        flat := flat + seq(|x.items|, k requires 0 <= k < |x.items| => Str(x.items[k]));
      } else {
        flat := flat + [Str(x)];
      }
      i := i + 1;
    }
    assert items[..i] == items;
  }

  /** `normalize_extra_images` */
  method NormalizeExtraImages(raw: PyValue) returns (r: Result<seq<Pair>, ScriptError>)
    ensures r == Normalize(raw)
  {
    if !IsTruthy(raw) {
      return Ok([]);
    }
    if raw.PyStr? {
      var pairs := AppendPairs([], Words(raw.s));
      assert pairs == PairUp(Words(raw.s));
      return Ok(pairs);
    }
    if !IsSeq(raw) {
      return Err(NotIterable);
    }
    var items := raw.items;
    assert Normalize(raw) == Ok(NormalizeItems(items));
    var pairs: seq<Pair>;
    if AllPairs(items) {
      pairs := PassThroughLoop(items);
      assert NormalizeItems(items) == PassThrough(items);
      assert pairs == NormalizeItems(items);
    } else if AllStrings(items) {
      pairs := StringListLoop(items);
      assert NormalizeItems(items) == DirectPairs(items) + PairUp(BufferedTokens(items));
      assert pairs == NormalizeItems(items);
    } else {
      var flat := FlattenLoop(items);
      pairs := AppendPairs([], flat);
      assert NormalizeItems(items) == PairUp(FlattenOnce(items));
      assert pairs == NormalizeItems(items);
    }
    return Ok(pairs);
  }

  /** Flattening a list of pairs into tokens, for the equivalence of the accepted shapes. */
  function Tokens(ps: seq<Pair>): (toks: seq<string>)
    ensures |toks| == 2 * |ps|
  {
    seq(2 * |ps|, i requires 0 <= i < 2 * |ps| => if i % 2 == 0 then ps[i / 2].0 else ps[i / 2].1)
  }

  predicate WordPairs(ps: seq<Pair>)
  {
    forall k :: 0 <= k < |ps| ==> ps[k].0 != [] && NoSpace(ps[k].0) && ps[k].1 != [] && NoSpace(ps[k].1)
  }

  lemma PairUpTokens(ps: seq<Pair>)
    ensures PairUp(Tokens(ps)) == ps
  {
  }

  lemma TokensAreWords(ps: seq<Pair>)
    requires WordPairs(ps)
    ensures WordList(Tokens(ps))
  {
    var toks := Tokens(ps);
    forall j | 0 <= j < |toks| ensures toks[j] != [] && NoSpace(toks[j]) {
      assert toks[j] == if j % 2 == 0 then ps[j / 2].0 else ps[j / 2].1;
    }
  }

  function StrItems(toks: seq<string>): seq<PyValue>
  {
    seq(|toks|, k requires 0 <= k < |toks| => PyStr(toks[k]))
  }

  function TupleItems(ps: seq<Pair>): seq<PyValue>
  {
    seq(|ps|, k requires 0 <= k < |ps| => PyTuple([PyStr(ps[k].0), PyStr(ps[k].1)]))
  }

  function SpacedItems(ps: seq<Pair>): seq<PyValue>
  {
    seq(|ps|, k requires 0 <= k < |ps| => PyStr(ps[k].0 + (" " + ps[k].1)))
  }

  /** One more string element: its split decides whether it pairs directly or is buffered. */
  lemma StringsSnoc(items: seq<PyValue>, x: PyValue, ws: seq<string>)
    requires AllStrings(items) && x.PyStr? && ws == Words(x.s)
    ensures AllStrings(items + [x])
    ensures DirectPairs(items + [x]) == DirectPairs(items) + (if |ws| == 2 then [(ws[0], ws[1])] else [])
    ensures BufferedTokens(items + [x]) == BufferedTokens(items) + (if |ws| == 2 then [] else ws)
  {
    assert (items + [x])[..|items|] == items;
  }

  /** Appending a single-word string adds its word to the buffer and no direct pair. */
  lemma SingleStep(items: seq<PyValue>, t: string)
    requires AllStrings(items) && t != [] && NoSpace(t)
    ensures AllStrings(items + [PyStr(t)])
    ensures DirectPairs(items + [PyStr(t)]) == DirectPairs(items)
    ensures BufferedTokens(items + [PyStr(t)]) == BufferedTokens(items) + [t]
  {
    WordsOfWord(t);
    StringsSnoc(items, PyStr(t), [t]);
  }

  /** Appending an "offset file" string adds one direct pair and nothing to the buffer. */
  lemma SpacedStep(items: seq<PyValue>, a: string, b: string)
    requires AllStrings(items) && a != [] && NoSpace(a) && b != [] && NoSpace(b)
    ensures AllStrings(items + [PyStr(a + (" " + b))])
    ensures DirectPairs(items + [PyStr(a + (" " + b))]) == DirectPairs(items) + [(a, b)]
    ensures BufferedTokens(items + [PyStr(a + (" " + b))]) == BufferedTokens(items)
  {
    WordsOfPair(a, b);
    StringsSnoc(items, PyStr(a + (" " + b)), [a, b]);
  }

  /** Single-word strings are all buffered, so the buffer is the token list itself. */
  lemma {:induction false} SinglesBuffered(toks: seq<string>)
    requires WordList(toks)
    ensures AllStrings(StrItems(toks))
    ensures DirectPairs(StrItems(toks)) == [] && BufferedTokens(StrItems(toks)) == toks
    decreases |toks|
  {
    if toks != [] {
      var n := |toks| - 1;
      InitLast(toks);
      assert StrItems(toks) == StrItems(toks[..n]) + [PyStr(toks[n])];
      assert WordList(toks[..n]);
      SinglesBuffered(toks[..n]);
      SingleStep(StrItems(toks[..n]), toks[n]);
    }
  }

  /** "offset file" strings each split into exactly two tokens and pair at once. */
  lemma {:induction false} SpacedPairsDirect(ps: seq<Pair>)
    requires WordPairs(ps)
    ensures AllStrings(SpacedItems(ps))
    ensures DirectPairs(SpacedItems(ps)) == ps && BufferedTokens(SpacedItems(ps)) == []
    decreases |ps|
  {
    if ps != [] {
      var n := |ps| - 1;
      var a, b := ps[n].0, ps[n].1;
      InitLast(ps);
      assert SpacedItems(ps) == SpacedItems(ps[..n]) + [PyStr(a + (" " + b))];
      assert WordPairs(ps[..n]);
      SpacedPairsDirect(ps[..n]);
      SpacedStep(SpacedItems(ps[..n]), a, b);
    }
  }

  /**
   * The four shapes the docstring of `normalize_extra_images` promises to
   * accept all give the same (offset, file) pairs: a space-joined string, a
   * flat list of strings, a list of 2-tuples and a list of "offset file" strings.
   */
  lemma NormalizeShapesAgree(ps: seq<Pair>)
    requires WordPairs(ps)
    ensures Normalize(PyStr(JoinSpace(Tokens(ps)))) == Ok(ps)
    ensures Normalize(PyList(StrItems(Tokens(ps)))) == Ok(ps)
    ensures Normalize(PyList(TupleItems(ps))) == Ok(ps)
    ensures Normalize(PyList(SpacedItems(ps))) == Ok(ps)
  {
    NormalizeJoined(ps);
    NormalizeFlat(ps);
    NormalizeTuples(ps);
    NormalizeSpaced(ps);
  }

  lemma NormalizeJoined(ps: seq<Pair>)
    requires WordPairs(ps)
    ensures Normalize(PyStr(JoinSpace(Tokens(ps)))) == Ok(ps)
  {
    var toks := Tokens(ps);
    PairUpTokens(ps);
    TokensAreWords(ps);
    WordsOfJoin(toks);
    if ps == [] {
      assert JoinSpace(toks) == "";
    } else {
      assert JoinSpace(toks) != "" by {
        assert Words(JoinSpace(toks)) != [];
      }
    }
  }

  /** A non-empty list of strings that are not all 2-element sequences takes the string branch. */
  lemma StringItemsNormalize(items: seq<PyValue>)
    requires AllStrings(items) && items != []
    ensures Normalize(PyList(items)) == Ok(DirectPairs(items) + PairUp(BufferedTokens(items)))
  {
    assert !IsSeq(items[0]);
  }

  lemma FlatWords(toks: seq<string>)
    requires WordList(toks) && toks != []
    ensures Normalize(PyList(StrItems(toks))) == Ok(PairUp(toks))
  {
    SinglesBuffered(toks);
    StringItemsNormalize(StrItems(toks));
    assert [] + PairUp(toks) == PairUp(toks);
  }

  lemma NormalizeFlat(ps: seq<Pair>)
    requires WordPairs(ps)
    ensures Normalize(PyList(StrItems(Tokens(ps)))) == Ok(ps)
  {
    PairUpTokens(ps);
    TokensAreWords(ps);
    if ps != [] {
      FlatWords(Tokens(ps));
    }
  }

  lemma NormalizeTuples(ps: seq<Pair>)
    requires WordPairs(ps)
    ensures Normalize(PyList(TupleItems(ps))) == Ok(ps)
  {
    var tuples := TupleItems(ps);
    if ps != [] {
      assert AllPairs(tuples);
      assert PassThrough(tuples) == ps;
    }
  }

  lemma NormalizeSpaced(ps: seq<Pair>)
    requires WordPairs(ps)
    ensures Normalize(PyList(SpacedItems(ps))) == Ok(ps)
  {
    var spaced := SpacedItems(ps);
    if ps != [] {
      SpacedPairsDirect(ps);
      StringItemsNormalize(spaced);
      assert PairUp([]) == [];
      assert ps + PairUp([]) == ps;
    }
  }

  // ---- esp32_create_combined_bin --------------------------------------------------------

  /** The values the post-build action reads from the build host. */
  datatype BuildEnv = BuildEnv(
    python: string,            // $PYTHONEXE
    buildDir: string,          // $BUILD_DIR
    chip: string,              // str(BOARD_MCU)
    flashSize: Option<string>, // board upload.flash_size, if set
    flashMode: string,
    flashFreq: string,
    firmwareApp: string,       // $BUILD_DIR/${PROGNAME}.bin
    outputPath: string,        // $BUILD_DIR/FW_${PROGNAME}.bin
    partitions: Option<string>,// board build.partitions
    projectDir: string,        // $PROJECT_DIR
    extraImages: PyValue)      // FLASH_EXTRA_IMAGES

  /** How an action ends: an escaping exception, `sys.exit(code)`, or a normal return. */
  datatype Outcome = Raised(error: ScriptError) | Exited(code: int) | Finished

  /** `run`: a non-zero exit status of the child ends the script with that same status. */
  function RunOutcome(status: int): (o: Outcome)
    ensures o.Exited? <==> status != 0
    ensures o.Exited? ==> o.code == status
    ensures !o.Raised?
  {
    if status != 0 then Exited(status) else Finished
  }

  function FlashSizeOf(setting: Option<string>): string
  {
    if setting.None? then "4MB" else setting.value
  }

  /** The fixed head of the merge-bin argument list. */
  function MergeHeader(env: BuildEnv): (args: seq<string>)
    ensures |args| == 11
  {
    ["--chip", env.chip, "merge-bin", "-o", env.outputPath, "--flash-mode", env.flashMode,
     "--flash-freq", env.flashFreq, "--flash-size", FlashSizeOf(env.flashSize)]
  }

  function SectionArgs(sections: seq<Pair>): (args: seq<string>)
    ensures |args| == 2 * |sections|
  {
    if sections == [] then []
    else SectionArgs(sections[..|sections| - 1]) + [sections[|sections| - 1].0, sections[|sections| - 1].1]
  }

  /** Each section contributes its offset then its file, in section order. */
  lemma {:induction false} SectionArgsAt(sections: seq<Pair>, k: nat)
    requires k < |sections|
    ensures SectionArgs(sections)[2 * k] == sections[k].0
    ensures SectionArgs(sections)[2 * k + 1] == sections[k].1
    decreases |sections|
  {
    if k < |sections| - 1 {
      SectionArgsAt(sections[..|sections| - 1], k);
    }
  }

  /** The filesystem section: present only for a truthy FS offset whose image file exists. */
  function FsSection(off: Offsets, buildDir: string, pathExists: string -> bool): seq<Pair>
  {
    if !Truthy(off.fs) then []
    else match ResolveFsImage(off.kind, buildDir, pathExists)
      case Some(img) => [(off.fs.value, img)]
      case None => []
  }

  /** The sections of the merge plan, or how the action ends before esptool runs. */
  function Plan(env: BuildEnv, pathExists: string -> bool, records: seq<Record>): Result<seq<Pair>, Outcome>
  {
    match OffsetsFor(env.partitions, env.projectDir, pathExists, records)
    case Err(e) => Err(Raised(e))
    case Ok(off) =>
      if !Truthy(off.app) then Err(Exited(1))
      else match Normalize(env.extraImages)
        case Err(e) => Err(Raised(e))
        case Ok(extras) => Ok(extras + [(off.app.value, env.firmwareApp)] + FsSection(off, env.buildDir, pathExists))
  }

  /**
   * The merge plan keeps the extra images first, in their order, then the
   * application at the resolved app offset, then at most the filesystem image.
   */
  lemma PlanLayout(env: BuildEnv, pathExists: string -> bool, records: seq<Record>)
    requires Plan(env, pathExists, records).Ok?
    ensures var off := OffsetsFor(env.partitions, env.projectDir, pathExists, records);
      var extras := Normalize(env.extraImages);
      var secs := Plan(env, pathExists, records).value;
      && off.Ok? && Truthy(off.value.app) && extras.Ok?
      && |extras.value| + 1 <= |secs| <= |extras.value| + 2
      && secs[..|extras.value|] == extras.value
      && secs[|extras.value|] == (off.value.app.value, env.firmwareApp)
      && (|secs| == |extras.value| + 2 <==>
            Truthy(off.value.fs) && ResolveFsImage(off.value.kind, env.buildDir, pathExists).Some?)
  {
  }

  /** No app offset at all ends the action with status 1 before esptool runs. */
  lemma PlanWithoutApp(env: BuildEnv, pathExists: string -> bool, records: seq<Record>)
    requires OffsetsFor(env.partitions, env.projectDir, pathExists, records).Ok?
    requires !Truthy(OffsetsFor(env.partitions, env.projectDir, pathExists, records).value.app)
    ensures Plan(env, pathExists, records) == Err(Exited(1))
  {
  }

  /** `run_esptool`: the module entry point of the same interpreter. */
  function EsptoolCommand(python: string, args: seq<string>): seq<string>
  {
    [python, "-m", "esptool"] + args
  }

  /** The argument loop: the fixed head, then offset and file of each section. */
  method MergeArgs(env: BuildEnv, sections: seq<Pair>) returns (args: seq<string>)
    ensures args == MergeHeader(env) + SectionArgs(sections)
  {
    args := MergeHeader(env);
    var i := 0;
    while i < |sections|
      invariant 0 <= i <= |sections|
      invariant args == MergeHeader(env) + SectionArgs(sections[..i])
    {
      assert sections[..i + 1][..i] == sections[..i];
      args := args + [sections[i].0, sections[i].1];
      i := i + 1;
    }
    assert sections[..i] == sections;
  }

  /**
   * `esp32_create_combined_bin`: resolve the offsets, collect the sections,
   * build the argument list section by section and run esptool once.
   * `toolStatus` is the exit status esptool would return.
   */
  method CreateCombinedBin(env: BuildEnv, pathExists: string -> bool, records: seq<Record>, toolStatus: int)
    returns (command: seq<string>, outcome: Outcome)
    ensures Plan(env, pathExists, records).Err? ==> command == [] && outcome == Plan(env, pathExists, records).error
    ensures Plan(env, pathExists, records).Ok? ==>
      && command == EsptoolCommand(env.python, MergeHeader(env) + SectionArgs(Plan(env, pathExists, records).value))
      && outcome == RunOutcome(toolStatus)
  {
    var off := FindOffsetsFromCsv(env.partitions, env.projectDir, pathExists, records);
    if off.Err? {
      return [], Raised(off.error);
    }
    var app, fs, kind := off.value.app, off.value.fs, off.value.kind;
    if !Truthy(app) {
      return [], Exited(1);
    }
    var extras := NormalizeExtraImages(env.extraImages);
    if extras.Err? {
      return [], Raised(extras.error);
    }
    var sections := extras.value;
    sections := sections + [(app.value, env.firmwareApp)];
    if Truthy(fs) {
      var img := ResolveFsImage(kind, env.buildDir, pathExists);
      if img.Some? {
        sections := sections + [(fs.value, img.value)];
      }
    }
    assert sections == extras.value + [(app.value, env.firmwareApp)] + FsSection(off.value, env.buildDir, pathExists);
    assert sections == Plan(env, pathExists, records).value;
    var args := MergeArgs(env, sections);
    command := EsptoolCommand(env.python, args);
    outcome := RunOutcome(toolStatus);
  }

  /** The argument list has the 11 fixed entries, then two per section in plan order. */
  lemma MergeArgsLayout(env: BuildEnv, sections: seq<Pair>, k: nat)
    requires k < |sections|
    ensures var args := MergeHeader(env) + SectionArgs(sections);
      && |args| == 11 + 2 * |sections|
      && args[11 + 2 * k] == sections[k].0 && args[12 + 2 * k] == sections[k].1
  {
    SectionArgsAt(sections, k);
  }

  // ---- pio_run_buildfs -------------------------------------------------------------------

  /** The buildfs command, limited to the current environment when its name is known. */
  function BuildfsCommand(python: string, envName: string): (cmd: seq<string>)
    ensures |cmd| >= 6 && cmd[..4] == [python, "-m", "platformio", "run"]
    ensures cmd[|cmd| - 2..] == ["--target", "buildfs"]
    ensures envName == "" ==> |cmd| == 6
    ensures envName != "" ==> |cmd| == 8 && cmd[4..6] == ["-e", envName]
  {
    [python, "-m", "platformio", "run"] + (if envName == "" then [] else ["-e", envName]) + ["--target", "buildfs"]
  }
}
