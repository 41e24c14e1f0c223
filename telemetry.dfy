// The per-core and cluster statistics logs written by the NFV cores are
// text files of `key:value` fields separated by commas, one epoch per
// line.  This module models the three readers of those logs:
//   * the keyed core reader (fields are looked up by name),
//   * the cluster reader (the first three values, by position),
//   * the compact core reader (the first six values, by position).
// Python's exceptions become `Err` values: a field without `:` is an
// IndexError, a value `float()` rejects is a ValueError, a missing key
// is a KeyError; the first one raised aborts the whole file.
module Telemetry {
  import opened Util

  datatype ParseError = IndexError | ValueError(text: string) | KeyError(key: string)

  /** One line of a per-core log, all eleven fields of the keyed format. */
  datatype CoreSnapshot = CoreSnapshot(
    epoch: real, size: real, core: real,
    slo: real, delayErrors: real, delayMax: real,
    activeFlows: real, burstFlows: real, rate: real,
    processed: real, queued: real)

  /** One line of a cluster log. */
  datatype ClusterSnapshot = ClusterSnapshot(epoch: real, cores: real, rate: real)

  /** One line of a per-core log in the six-value positional format. */
  datatype CompactCoreSnapshot = CompactCoreSnapshot(
    epoch: real, active: real, slo: real,
    activeFlows: real, burstFlows: real, rate: real)

  // ---------------------------------------------------------------------
  // Decimal numbers, the subset of Python `float()` syntax the logs use:
  // optional surrounding whitespace, an optional sign, digits with an
  // optional fractional part.

  predicate IsDigit(c: char) { '0' <= c <= '9' }

  predicate AllDigits(s: string) { forall i :: 0 <= i < |s| ==> IsDigit(s[i]) }

  function DigitsValue(d: string): nat
    requires AllDigits(d)
  {
    if d == [] then 0 else DigitsValue(d[..|d| - 1]) * 10 + (d[|d| - 1] as int - '0' as int)
  }

  function Pow10(n: nat): (r: nat)
    ensures r >= 1
  {
    if n == 0 then 1 else 10 * Pow10(n - 1)
  }

  /** Python `float(s)` on decimal text; `None` where Python raises ValueError. */
  function ParseFloat(s: string): Option<real>
  {
    var t := Strip(s);
    var neg := |t| > 0 && t[0] == '-';
    var body := if |t| > 0 && (t[0] == '-' || t[0] == '+') then t[1..] else t;
    var parts := Split(body, '.');
    if |parts| > 2 then None
    else
      var whole := parts[0];
      var frac := if |parts| == 2 then parts[1] else "";
      if |whole| + |frac| == 0 || !AllDigits(whole) || !AllDigits(frac) then None
      else
        var mag := DigitsValue(whole) as real + DigitsValue(frac) as real / Pow10(|frac|) as real;
        Some(if neg then -mag else mag)
  }

  /** Decimal text of a natural number, as `"%d"` prints it. */
  function ShowNat(n: nat): (s: string)
    ensures |s| >= 1 && AllDigits(s)
  {
    if n < 10 then [('0' as int + n) as char]
    else ShowNat(n / 10) + [('0' as int + n % 10) as char]
  }

  lemma {:induction false} DigitsValueShowNat(n: nat)
    ensures DigitsValue(ShowNat(n)) == n
  {
    if n >= 10 {
      var s := ShowNat(n);
      assert s[..|s| - 1] == ShowNat(n / 10);
      DigitsValueShowNat(n / 10);
    }
  }

  lemma {:induction false} SplitWithoutSeparator(s: string, sep: char)
    requires sep !in s
    ensures Split(s, sep) == [s]
    decreases |s|
  {
    if |s| > 0 {
      assert sep !in s[1..] by {
        forall i | 0 <= i < |s| - 1 ensures s[1..][i] != sep { assert s[1..][i] == s[i + 1]; }
      }
      SplitWithoutSeparator(s[1..], sep);
      assert [s[0]] + s[1..] == s;
    }
  }

  lemma StripUnpadded(s: string)
    requires |s| > 0 && !IsSpace(s[0]) && !IsSpace(s[|s| - 1])
    ensures Strip(s) == s
  {
    assert StripLeft(s) == s;
  }

  lemma NoDotInDigits(s: string)
    requires AllDigits(s)
    ensures '.' !in s
  {
    forall i | 0 <= i < |s| ensures s[i] != '.' { assert IsDigit(s[i]); }
  }

  /** Reading back a printed natural number gives the number. */
  lemma ParseShowNat(n: nat)
    ensures ParseFloat(ShowNat(n)) == Some(n as real)
  {
    var s := ShowNat(n);
    assert IsDigit(s[0]) && IsDigit(s[|s| - 1]);
    StripUnpadded(s);
    NoDotInDigits(s);
    SplitWithoutSeparator(s, '.');
    DigitsValueShowNat(n);
    assert DigitsValue("") == 0;
  }

  // ---------------------------------------------------------------------
  // Fields: `m.split(':')[1]` is the value text, `m.split(':')[0].strip()`
  // the key.

  /** `float(m.split(':')[1])`. */
  function ParseValue(m: string): Result<real, ParseError>
  {
    var parts := Split(m, ':');
    if |parts| < 2 then Err(IndexError)
    else match ParseFloat(parts[1])
      case None => Err(ValueError(parts[1]))
      case Some(v) => Ok(v)
  }

  /** `(m.split(':')[0].strip(), float(m.split(':')[1]))`. */
  function ParseKeyedField(m: string): Result<(string, real), ParseError>
  {
    match ParseValue(m)
    case Err(e) => Err(e)
    case Ok(v) => Ok((Strip(Split(m, ':')[0]), v))
  }

  /** A list comprehension over the fields: the leftmost failure is raised. */
  function ParseAll<T>(fields: seq<string>, parse: string -> Result<T, ParseError>): Result<seq<T>, ParseError>
  {
    if fields == [] then Ok([])
    else match parse(fields[0])
      case Err(e) => Err(e)
      case Ok(v) =>
        match ParseAll(fields[1..], parse)
        case Err(e) => Err(e)
        case Ok(vs) => Ok([v] + vs)
  }

  /** A comprehension succeeds exactly when every field parses, and then
      holds every field's value in field order. */
  lemma {:induction false} ParseAllOk<T>(fields: seq<string>, parse: string -> Result<T, ParseError>)
    ensures ParseAll(fields, parse).Ok? <==> forall i :: 0 <= i < |fields| ==> parse(fields[i]).Ok?
    ensures ParseAll(fields, parse).Ok? ==>
      |ParseAll(fields, parse).value| == |fields| &&
      forall i :: 0 <= i < |fields| ==> parse(fields[i]) == Ok(ParseAll(fields, parse).value[i])
    decreases |fields|
  {
    if fields != [] {
      ParseAllOk(fields[1..], parse);
      assert forall i :: 1 <= i < |fields| ==> fields[1..][i - 1] == fields[i];
    }
  }

  // ---------------------------------------------------------------------
  // The keyed format: `epoch_info[field] = val` for each field in order.

  /** The dictionary the fill loop builds: later fields overwrite earlier ones. */
  function FieldDict(data: seq<(string, real)>): map<string, real>
  {
    if data == [] then map[]
    else FieldDict(data[..|data| - 1])[data[|data| - 1].0 := data[|data| - 1].1]
  }

  /** A key is present exactly when some field carries it, and its value is
      the one of the last field carrying it. */
  lemma {:induction false} FieldDictLast(data: seq<(string, real)>, key: string)
    ensures key in FieldDict(data) <==> exists i :: 0 <= i < |data| && data[i].0 == key
    ensures forall i :: (0 <= i < |data| && data[i].0 == key &&
      (forall j :: i < j < |data| ==> data[j].0 != key)) ==> FieldDict(data)[key] == data[i].1
    decreases |data|
  {
    if data != [] {
      var init := data[..|data| - 1];
      FieldDictLast(init, key);
      assert forall i :: 0 <= i < |init| ==> init[i] == data[i];
      if data[|data| - 1].0 != key {
        assert key in FieldDict(data) <==> key in FieldDict(init);
      }
    }
  }

  /** Swapping two neighbouring fields with different keys does not change
      the dictionary: fields are looked up by name, not by position. */
  lemma {:induction false} FieldDictSwap(a: seq<(string, real)>, x: (string, real), y: (string, real), b: seq<(string, real)>)
    requires x.0 != y.0
    ensures FieldDict(a + [x, y] + b) == FieldDict(a + [y, x] + b)
    decreases |b|
  {
    if b == [] {
      assert (a + [x, y] + b)[..|a| + 1] == a + [x];
      assert (a + [y, x] + b)[..|a| + 1] == a + [y];
      assert (a + [x] )[..|a|] == a;
      assert (a + [y] )[..|a|] == a;
      assert FieldDict(a + [x, y] + b) == FieldDict(a)[x.0 := x.1][y.0 := y.1];
      assert FieldDict(a + [y, x] + b) == FieldDict(a)[y.0 := y.1][x.0 := x.1];
    } else {
      var b' := b[..|b| - 1];
      FieldDictSwap(a, x, y, b');
      assert (a + [x, y] + b)[..|a + [x, y] + b| - 1] == a + [x, y] + b';
      assert (a + [y, x] + b)[..|a + [y, x] + b| - 1] == a + [y, x] + b';
    }
  }

  /** The names `CoreSnapshot.__init__` reads, in the order it reads them. */
  const CoreSnapshotFields: seq<string> :=
    ["epoch", "size", "core", "slo", "delaye", "delaym", "flowa", "flowb", "rate", "pktp", "pktq"]

  /** The first name of `names` missing from the dictionary, if any. */
  function FirstMissing(names: seq<string>, info: map<string, real>): (r: Option<string>)
    ensures r.None? <==> forall k :: k in names ==> k in info
    ensures r.Some? ==> r.value in names && r.value !in info
  {
    if names == [] then None
    else if names[0] !in info then Some(names[0])
    else FirstMissing(names[1..], info)
  }

  lemma FieldsPresent(info: map<string, real>)
    requires FirstMissing(CoreSnapshotFields, info).None?
    ensures "epoch" in info && "size" in info && "core" in info && "slo" in info
    ensures "delaye" in info && "delaym" in info && "flowa" in info && "flowb" in info
    ensures "rate" in info && "pktp" in info && "pktq" in info
  {
    var f := CoreSnapshotFields;
    assert f[0] in f && f[1] in f && f[2] in f && f[3] in f && f[4] in f && f[5] in f;
    assert f[6] in f && f[7] in f && f[8] in f && f[9] in f && f[10] in f;
  }

  /** `CoreSnapshot(epoch_info)`: KeyError on the first missing name. */
  function CoreSnapshotOf(info: map<string, real>): Result<CoreSnapshot, ParseError>
  {
    match FirstMissing(CoreSnapshotFields, info)
    case Some(k) => Err(KeyError(k))
    case None =>
      FieldsPresent(info);
      Ok(CoreSnapshot(info["epoch"], info["size"], info["core"], info["slo"], info["delaye"],
        info["delaym"], info["flowa"], info["flowb"], info["rate"], info["pktp"], info["pktq"]))
  }

  predicate IsCoreLine(line: string)
  {
    Contains(line, "epoch") && Contains(line, "slo") && Contains(line, "rate")
  }

  predicate IsClusterLine(line: string)
  {
    Contains(line, "epoch") && Contains(line, "core") && Contains(line, "rate")
  }

  function ParseCoreLine(line: string): Result<CoreSnapshot, ParseError>
  {
    match ParseAll(Split(line, ','), ParseKeyedField)
    case Err(e) => Err(e)
    case Ok(data) => CoreSnapshotOf(FieldDict(data))
  }

  /** A dictionary yields a snapshot exactly when all eleven names occur;
      otherwise the read fails with KeyError on a missing name.  There is
      no default value. */
  lemma CoreSnapshotOfSpec(info: map<string, real>)
    ensures CoreSnapshotOf(info).Ok? <==> forall k :: k in CoreSnapshotFields ==> k in info
    ensures CoreSnapshotOf(info).Err? ==>
      CoreSnapshotOf(info).error.KeyError? &&
      CoreSnapshotOf(info).error.key in CoreSnapshotFields && CoreSnapshotOf(info).error.key !in info
  {
    var missing := FirstMissing(CoreSnapshotFields, info);
    assert CoreSnapshotOf(info).Ok? <==> missing.None?;
  }

  /** The cluster reader: every field's value is parsed, then the first three
      are taken by position. */
  function ParseClusterLine(line: string): Result<ClusterSnapshot, ParseError>
  {
    match ParseAll(Split(line, ','), ParseValue)
    case Err(e) => Err(e)
    case Ok(data) =>
      if |data| < 3 then Err(IndexError) else Ok(ClusterSnapshot(data[0], data[1], data[2]))
  }

  /** The compact core reader: the first six values by position. */
  function ParseCompactCoreLine(line: string): Result<CompactCoreSnapshot, ParseError>
  {
    match ParseAll(Split(line, ','), ParseValue)
    case Err(e) => Err(e)
    case Ok(data) =>
      if |data| < 6 then Err(IndexError)
      else Ok(CompactCoreSnapshot(data[0], data[1], data[2], data[3], data[4], data[5]))
  }

  /** A positional line yields its first six values in order, whatever its
      keys say; fewer than six fields are an IndexError. */
  lemma CompactPositional(line: string, fields: seq<string>)
    requires fields == Split(line, ',')
    requires forall i :: 0 <= i < |fields| ==> ParseValue(fields[i]).Ok?
    ensures |fields| < 6 <==> ParseCompactCoreLine(line) == Err(IndexError)
    ensures |fields| >= 6 ==>
      ParseCompactCoreLine(line) == Ok(CompactCoreSnapshot(
        ParseValue(fields[0]).value, ParseValue(fields[1]).value, ParseValue(fields[2]).value,
        ParseValue(fields[3]).value, ParseValue(fields[4]).value, ParseValue(fields[5]).value))
  {
    ParseAllOk(fields, ParseValue);
  }

  /** The cluster reader takes its first three values by position; fewer
      than three fields are an IndexError. */
  lemma ClusterPositional(line: string, fields: seq<string>)
    requires fields == Split(line, ',')
    requires forall i :: 0 <= i < |fields| ==> ParseValue(fields[i]).Ok?
    ensures |fields| < 3 <==> ParseClusterLine(line) == Err(IndexError)
    ensures |fields| >= 3 ==>
      ParseClusterLine(line) == Ok(ClusterSnapshot(
        ParseValue(fields[0]).value, ParseValue(fields[1]).value, ParseValue(fields[2]).value))
  {
    ParseAllOk(fields, ParseValue);
  }

  // ---------------------------------------------------------------------
  // Whole files: lines without the marker words are skipped, the others
  // become one snapshot each, and the first exception aborts the read.

  function ReadLines<T>(lines: seq<string>, keep: string -> bool, parse: string -> Result<T, ParseError>): Result<seq<T>, ParseError>
  {
    if lines == [] then Ok([])
    else
      var last := lines[|lines| - 1];
      match ReadLines(lines[..|lines| - 1], keep, parse)
      case Err(e) => Err(e)
      case Ok(prev) =>
        if !keep(last) then Ok(prev)
        else match parse(last)
          case Err(e) => Err(e)
          case Ok(s) => Ok(prev + [s])
  }

  function Kept(lines: seq<string>, keep: string -> bool): (r: seq<string>)
    ensures forall i :: 0 <= i < |r| ==> keep(r[i])
  {
    if lines == [] then []
    else Kept(lines[..|lines| - 1], keep) + (if keep(lines[|lines| - 1]) then [lines[|lines| - 1]] else [])
  }

  /** The read succeeds exactly when every kept line parses; the snapshots
      are then those of the kept lines, one each, in file order. */
  lemma {:induction false} ReadLinesSpec<T>(lines: seq<string>, keep: string -> bool, parse: string -> Result<T, ParseError>)
    ensures ReadLines(lines, keep, parse).Ok? <==> forall i :: 0 <= i < |lines| && keep(lines[i]) ==> parse(lines[i]).Ok?
    ensures ReadLines(lines, keep, parse).Ok? ==>
      var r := ReadLines(lines, keep, parse).value;
      var k := Kept(lines, keep);
      |r| == |k| && forall i :: 0 <= i < |k| ==> parse(k[i]) == Ok(r[i])
    decreases |lines|
  {
    if lines != [] {
      var init := lines[..|lines| - 1];
      ReadLinesSpec(init, keep, parse);
      assert forall i :: 0 <= i < |init| ==> init[i] == lines[i];
    }
  }

  lemma {:induction false} ReadLinesErrSticky<T>(lines: seq<string>, n: nat, keep: string -> bool, parse: string -> Result<T, ParseError>)
    requires n <= |lines| && ReadLines(lines[..n], keep, parse).Err?
    ensures ReadLines(lines, keep, parse) == ReadLines(lines[..n], keep, parse)
    decreases |lines| - n
  {
    if n < |lines| {
      assert lines[..n + 1][..n] == lines[..n];
      ReadLinesErrSticky(lines, n + 1, keep, parse);
    } else {
      assert lines[..n] == lines;
    }
  }

  /** One more line read: it is skipped, appended, or ends the read. */
  lemma ReadLinesStep<T>(lines: seq<string>, i: nat, keep: string -> bool, parse: string -> Result<T, ParseError>, acc: seq<T>)
    requires i < |lines| && ReadLines(lines[..i], keep, parse) == Ok(acc)
    ensures !keep(lines[i]) ==> ReadLines(lines[..i + 1], keep, parse) == Ok(acc)
    ensures keep(lines[i]) && parse(lines[i]).Ok? ==>
      ReadLines(lines[..i + 1], keep, parse) == Ok(acc + [parse(lines[i]).value])
    ensures keep(lines[i]) && parse(lines[i]).Err? ==>
      ReadLines(lines[..i + 1], keep, parse) == Err(parse(lines[i]).error)
  {
    assert lines[..i + 1][..i] == lines[..i];
  }

  function CoreSnapshots(lines: seq<string>): Result<seq<CoreSnapshot>, ParseError>
  {
    ReadLines(lines, IsCoreLine, ParseCoreLine)
  }

  function ClusterSnapshots(lines: seq<string>): Result<seq<ClusterSnapshot>, ParseError>
  {
    ReadLines(lines, IsClusterLine, ParseClusterLine)
  }

  function CompactCoreSnapshots(lines: seq<string>): Result<seq<CompactCoreSnapshot>, ParseError>
  {
    ReadLines(lines, IsCoreLine, ParseCompactCoreLine)
  }

  /** One keyed line: the comprehension over its fields, then the loop that
      fills `epoch_info`, then the snapshot constructor. */
  method ParseCoreLineFill(line: string) returns (r: Result<CoreSnapshot, ParseError>)
    ensures r == ParseCoreLine(line)
  {
    var fields := ParseAll(Split(line, ','), ParseKeyedField);
    if fields.Err? {
      return Err(fields.error);
    }
    var data := fields.value;
    var info: map<string, real> := map[];
    var j := 0;
    while j < |data|
      invariant 0 <= j <= |data|
      invariant info == FieldDict(data[..j])
    {
      assert data[..j + 1][..j] == data[..j];
      info := info[data[j].0 := data[j].1];
      j := j + 1;
    }
    assert data[..j] == data;
    r := CoreSnapshotOf(info);
  }

  /** `read_core_snapshot` over the lines of a file (keyed format). */
  method ReadCoreSnapshot(lines: seq<string>) returns (r: Result<seq<CoreSnapshot>, ParseError>)
    ensures r == CoreSnapshots(lines)
  {
    var snapshots: seq<CoreSnapshot> := [];
    var i := 0;
    while i < |lines|
      invariant 0 <= i <= |lines|
      invariant CoreSnapshots(lines[..i]) == Ok(snapshots)
    {
      var line := lines[i];
      assert lines[..i + 1][..i] == lines[..i];
      if IsCoreLine(line) {
        var ss := ParseCoreLineFill(line);
        if ss.Err? {
          r := Err(ss.error);
          ReadLinesErrSticky(lines, i + 1, IsCoreLine, ParseCoreLine);
          return;
        }
        snapshots := snapshots + [ss.value];
      }
      i := i + 1;
    }
    assert lines[..i] == lines;
    r := Ok(snapshots);
  }

  /** `read_cluster_snapshot` over the lines of a file. */
  method ReadClusterSnapshot(lines: seq<string>) returns (r: Result<seq<ClusterSnapshot>, ParseError>)
    ensures r == ClusterSnapshots(lines)
  {
    var snapshots: seq<ClusterSnapshot> := [];
    var i := 0;
    while i < |lines|
      invariant 0 <= i <= |lines|
      invariant ClusterSnapshots(lines[..i]) == Ok(snapshots)
    {
      var line := lines[i];
      assert lines[..i + 1][..i] == lines[..i];
      if IsClusterLine(line) {
        var ss := ParseClusterLine(line);
        if ss.Err? {
          r := Err(ss.error);
          ReadLinesErrSticky(lines, i + 1, IsClusterLine, ParseClusterLine);
          return;
        }
        snapshots := snapshots + [ss.value];
      }
      i := i + 1;
    }
    assert lines[..i] == lines;
    r := Ok(snapshots);
  }

  /** `read_core_snapshot` of the positional variant. */
  method ReadCompactCoreSnapshot(lines: seq<string>) returns (r: Result<seq<CompactCoreSnapshot>, ParseError>)
    ensures r == CompactCoreSnapshots(lines)
  {
    var snapshots: seq<CompactCoreSnapshot> := [];
    var i := 0;
    while i < |lines|
      invariant 0 <= i <= |lines|
      invariant CompactCoreSnapshots(lines[..i]) == Ok(snapshots)
    {
      var line := lines[i];
      assert lines[..i + 1][..i] == lines[..i];
      if IsCoreLine(line) {
        var ss := ParseCompactCoreLine(line);
        if ss.Err? {
          r := Err(ss.error);
          ReadLinesErrSticky(lines, i + 1, IsCoreLine, ParseCompactCoreLine);
          return;
        }
        snapshots := snapshots + [ss.value];
      }
      i := i + 1;
    }
    assert lines[..i] == lines;
    r := Ok(snapshots);
  }
}
