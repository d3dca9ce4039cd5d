/**
 * The account file of src/BankSystem.java: one line per account,
 * `kind,id,name,balance,rate`, written by save and read back by load.
 */
module LineFormat {
  import opened Wrappers
  import opened Text
  import opened Numbers
  import opened Accounts
  import opened Sequences

  /** What one line holds: an account without its transaction history. */
  datatype AccountRecord = AccountRecord(
    kind: Kind,
    accountID: Int32,
    customerName: string,
    balance: int,
    annualInterestRate: int)

  // ---------------------------------------------------------------- kind tag

  /** The tag save writes: the class of the account, plain accounts as "BankAccount". */
  function KindTag(kind: Kind): (tag: string)
    ensures tag != [] && !IsTrimmed(tag[0]) && !IsTrimmed(tag[|tag| - 1]) && ',' !in tag
  {
    match kind
    case Checking => "Checking"
    case Savings => "Savings"
    case Plain => "BankAccount"
  }

  function ToLowerAscii(c: char): char
  {
    if 'A' <= c <= 'Z' then (c as int + 32) as char else c
  }

  /** The string with every ASCII capital replaced by its small letter. */
  function LowerAscii(s: string): (t: string)
    ensures |t| == |s|
    ensures forall i :: 0 <= i < |s| ==> t[i] == ToLowerAscii(s[i])
  {
    seq(|s|, i requires 0 <= i < |s| => ToLowerAscii(s[i]))
  }

  /**
   * `String.equalsIgnoreCase`, for ASCII letters: compared character by
   * character, the two strings are the same once both are in small letters.
   */
  predicate EqualsIgnoreCase(a: string, b: string): (eq: bool)
    ensures eq <==> LowerAscii(a) == LowerAscii(b)
  {
    |a| == |b| && forall i :: 0 <= i < |a| ==> ToLowerAscii(a[i]) == ToLowerAscii(b[i])
  }

  /** The kind load builds: "Checking" or "Savings" in any case, anything else plain. */
  function KindOfTag(tag: string): (kind: Kind)
    ensures kind == Checking <==> LowerAscii(tag) == "checking"
    ensures kind == Savings <==> LowerAscii(tag) == "savings"
  {
    assert LowerAscii("Checking") == "checking";
    assert LowerAscii("Savings") == "savings";
    if EqualsIgnoreCase("Checking", tag) then Checking
    else if EqualsIgnoreCase("Savings", tag) then Savings
    else Plain
  }

  /** Every tag save writes is read back as the kind it was written for. */
  lemma KindTagRoundTrip(kind: Kind)
    ensures KindOfTag(KindTag(kind)) == kind
  {
    if kind == Plain {
      assert !EqualsIgnoreCase("Checking", "BankAccount");
      assert !EqualsIgnoreCase("Savings", "BankAccount");
    }
  }

  /** The comparison ignores case, and an unknown tag falls back to a plain account. */
  lemma KindOfTagExamples()
    ensures KindOfTag("CHECKING") == Checking
    ensures KindOfTag("savings") == Savings
    ensures KindOfTag("Loan") == Plain
    ensures KindOfTag("") == Plain
  {
    assert EqualsIgnoreCase("Checking", "CHECKING");
    assert !EqualsIgnoreCase("Checking", "savings");
    assert EqualsIgnoreCase("Savings", "savings");
    assert !EqualsIgnoreCase("Checking", "Loan") && !EqualsIgnoreCase("Savings", "Loan");
  }

  // ------------------------------------------------------------- name field

  /** On save every comma in the name becomes a semicolon, and nothing else changes. */
  function EscapeName(name: string): (r: string)
    ensures |r| == |name| && ',' !in r
    ensures forall i :: 0 <= i < |name| && name[i] != ',' ==> r[i] == name[i]
  {
    seq(|name|, i requires 0 <= i < |name| => if name[i] == ',' then ';' else name[i])
  }

  /** On load every semicolon in the name becomes a comma, and nothing else changes. */
  function RestoreName(field: string): (r: string)
    ensures |r| == |field| && ';' !in r
    ensures forall i :: 0 <= i < |field| && field[i] != ';' ==> r[i] == field[i]
  {
    seq(|field|, i requires 0 <= i < |field| => if field[i] == ';' then ',' else field[i])
  }

  /**
   * A name survives a save and a load exactly when it holds no semicolon;
   * otherwise each of its semicolons comes back as a comma.
   */
  lemma RestoreEscapeName(name: string)
    ensures |RestoreName(EscapeName(name))| == |name|
    ensures forall i :: 0 <= i < |name| ==>
      RestoreName(EscapeName(name))[i] == if name[i] == ';' then ',' else name[i]
    ensures RestoreName(EscapeName(name)) == name <==> ';' !in name
  {
    var r := RestoreName(EscapeName(name));
    if ';' !in name {
      assert forall i :: 0 <= i < |name| ==> r[i] == name[i];
    }
  }

  // ------------------------------------------------------------------- lines

  /** The five fields of a record, in file order, as save formats them. */
  function RecordFields(r: AccountRecord): seq<string>
  {
    [KindTag(r.kind), FormatInt(r.accountID), EscapeName(r.customerName),
     FormatCents(r.balance), FormatCents(r.annualInterestRate)]
  }

  /** `printf("%s,%d,%s,%.2f,%.2f")` of one account. */
  function EncodeLine(r: AccountRecord): (line: string)
  {
    Join(RecordFields(r))
  }

  /** A written line consists of exactly the record's five fields, separated by commas. */
  lemma EncodeLineFields(r: AccountRecord)
    ensures Fields(EncodeLine(r)) == RecordFields(r)
  {
    FieldsJoin(RecordFields(r));
  }

  /** How load treats one line of the file. */
  datatype LineResult =
    | Skipped                    // blank after trimming, or fewer than five fields
    | Malformed                  // a numeric field does not parse: the load is abandoned
    | Parsed(record: AccountRecord)

  /**
   * One turn of the load loop: trim, skip a blank line, split at commas, and
   * decode the fields.
   */
  function DecodeLine(raw: string): (res: LineResult)
    ensures res.Skipped? <==> Trim(raw) == [] || |Split(Trim(raw))| < 5
    ensures !res.Skipped? ==> res == DecodeFields(Split(Trim(raw)))
    ensures res.Parsed? ==> ';' !in res.record.customerName
  {
    var line := Trim(raw);
    if line == [] then Skipped else DecodeFields(Split(line))
  }

  /**
   * Skip a line of fewer than five fields, then read the ID, the name
   * (semicolons back to commas), the balance and the rate; a field after the
   * fifth is ignored.
   */
  function DecodeFields(parts: seq<string>): (res: LineResult)
    ensures res.Skipped? <==> |parts| < 5
    ensures |parts| >= 5 ==>
      (res.Malformed? <==> ParseInt(parts[1]).None? || ParseDecimal(parts[3]).None? || ParseDecimal(parts[4]).None?)
    ensures res.Parsed? ==>
      && res.record.kind == KindOfTag(parts[0])
      && Some(res.record.accountID as int) == ParseInt(parts[1])
      && res.record.customerName == RestoreName(parts[2])
      && Some(res.record.balance) == ParseDecimal(parts[3])
      && Some(res.record.annualInterestRate) == ParseDecimal(parts[4])
    ensures res.Parsed? ==> ';' !in res.record.customerName
  {
    if |parts| < 5 then Skipped
    else
      var id := ParseInt(parts[1]);
      var bal := ParseDecimal(parts[3]);
      var rate := ParseDecimal(parts[4]);
      if id.None? || bal.None? || rate.None? then Malformed
      else Parsed(AccountRecord(KindOfTag(parts[0]), id.value, RestoreName(parts[2]), bal.value, rate.value))
  }

  /** What a saved record looks like after it is loaded again. */
  function Reloaded(r: AccountRecord): AccountRecord
  {
    r.(customerName := RestoreName(EscapeName(r.customerName)))
  }

  /**
   * Decoding an encoded line gives the record back, with the name passed
   * through the comma/semicolon substitution; so exactly when the name holds
   * no semicolon the record comes back unchanged.
   */
  lemma DecodeEncodeLine(r: AccountRecord)
    ensures DecodeLine(EncodeLine(r)) == Parsed(Reloaded(r))
    ensures DecodeLine(EncodeLine(r)) == Parsed(r) <==> ';' !in r.customerName
  {
    SplitTrimJoin(RecordFields(r));
    DecodeRecordFields(r);
    RestoreEscapeName(r.customerName);
  }

  /** The five fields save writes decode to the record, name substitution included. */
  lemma DecodeRecordFields(r: AccountRecord)
    ensures DecodeFields(RecordFields(r)) == Parsed(Reloaded(r))
  {
    ParseFormatInt(r.accountID);
    ParseFormatCents(r.balance);
    ParseFormatCents(r.annualInterestRate);
    KindTagRoundTrip(r.kind);
  }

  /**
   * Comma-free fields with no blank at either end of the line and a non-empty
   * last field are what load's trim and split recover from the joined line.
   */
  lemma SplitTrimJoin(parts: seq<string>)
    requires |parts| >= 1 && parts[0] != [] && parts[|parts| - 1] != []
    requires !IsTrimmed(parts[0][0]) && !IsTrimmed(parts[|parts| - 1][|parts[|parts| - 1]| - 1])
    requires forall k :: 0 <= k < |parts| ==> ',' !in parts[k]
    ensures Split(Trim(Join(parts))) == parts
  {
    JoinTrimmed(parts);
    SplitJoin(parts);
  }

  /** A joined line whose outer characters are not blanks is unchanged by trimming. */
  lemma JoinTrimmed(parts: seq<string>)
    requires |parts| >= 1 && parts[0] != [] && parts[|parts| - 1] != []
    requires !IsTrimmed(parts[0][0]) && !IsTrimmed(parts[|parts| - 1][|parts[|parts| - 1]| - 1])
    ensures Trim(Join(parts)) == Join(parts)
  {
    var line, first, last := Join(parts), parts[0], parts[|parts| - 1];
    JoinEnds(parts);
    assert line[0] == line[..|first|][0] == first[0];
    assert line[|line| - 1] == line[|line| - |last|..][|last| - 1] == last[|last| - 1];
  }

  // -------------------------------------------------------------- the file

  /** Save: one line per account, in list order. */
  function SaveLines(rs: seq<AccountRecord>): (lines: seq<string>)
    ensures |lines| == |rs|
    ensures forall i :: 0 <= i < |rs| ==> lines[i] == EncodeLine(rs[i])
  {
    if rs == [] then []
    else
      var init := rs[..|rs| - 1];
      assert forall i :: 0 <= i < |init| ==> init[i] == rs[i];
      SaveLines(init) + [EncodeLine(rs[|rs| - 1])]
  }

  /** How load treats each line of a file, in order. */
  function DecodeAll(lines: seq<string>): (results: seq<LineResult>)
    ensures |results| == |lines|
  {
    Map(DecodeLine, lines)
  }

  /** The outcome at each position is that line's own outcome. */
  lemma DecodeAllAt(lines: seq<string>, i: nat)
    requires i < |lines|
    ensures DecodeAll(lines)[i] == DecodeLine(lines[i])
  {
    MapAt(DecodeLine, lines, i);
  }

  /** Decoding two runs of lines one after the other is decoding each. */
  lemma DecodeAllConcat(a: seq<string>, b: seq<string>)
    ensures DecodeAll(a + b) == DecodeAll(a) + DecodeAll(b)
  {
    MapConcat(DecodeLine, a, b);
  }

  /**
   * The load loop as a fold over the per-line outcomes: the records of the
   * accepted lines in order, or the index of the first malformed line, which
   * abandons the whole load.
   */
  function Collect(results: seq<LineResult>): (r: Result<seq<AccountRecord>, nat>)
    ensures r.Ok? <==> forall j :: 0 <= j < |results| ==> !results[j].Malformed?
    ensures r.Err? ==> r.error < |results| && results[r.error].Malformed?
    ensures r.Err? ==> forall j :: 0 <= j < r.error ==> !results[j].Malformed?
    ensures r.Ok? ==> |r.value| <= |results|
  {
    if results == [] then Ok([])
    else
      var init := results[..|results| - 1];
      assert forall j :: 0 <= j < |init| ==> init[j] == results[j];
      match Collect(init)
      case Err(i) => Err(i)
      case Ok(acc) =>
        match results[|results| - 1]
        case Skipped => Ok(acc)
        case Malformed => Err(|results| - 1)
        case Parsed(rec) => Ok(acc + [rec])
  }

  /** One more turn of the fold over a prefix that has not failed yet. */
  lemma CollectStep(results: seq<LineResult>, i: nat)
    requires i < |results| && Collect(results[..i]).Ok?
    ensures results[i].Skipped? ==> Collect(results[..i + 1]) == Collect(results[..i])
    ensures results[i].Malformed? ==> Collect(results[..i + 1]) == Err(i)
    ensures results[i].Parsed? ==>
      Collect(results[..i + 1]) == Ok(Collect(results[..i]).value + [results[i].record])
  {
    assert results[..i + 1][..i] == results[..i];
  }

  /** When the first malformed outcome is at index `i`, the whole fold stops there. */
  lemma CollectFirstError(results: seq<LineResult>, i: nat)
    requires i < |results| && results[i].Malformed?
    requires Collect(results[..i]).Ok?
    ensures Collect(results) == Err(i)
  {
    assert forall j :: 0 <= j < i ==> results[..i][j] == results[j];
  }

  /**
   * Load of a file that exists, given as its lines: it succeeds exactly when
   * no line is malformed, and otherwise names the first malformed line.
   */
  function ParseLines(lines: seq<string>): (r: Result<seq<AccountRecord>, nat>)
    ensures r.Ok? <==> forall j :: 0 <= j < |lines| ==> !DecodeLine(lines[j]).Malformed?
    ensures r.Err? ==> r.error < |lines| && DecodeLine(lines[r.error]).Malformed?
    ensures r.Err? ==> forall j :: 0 <= j < r.error ==> !DecodeLine(lines[j]).Malformed?
  {
    DecodeAllEach(lines);
    Collect(DecodeAll(lines))
  }

  lemma DecodeAllEach(lines: seq<string>)
    ensures forall j :: 0 <= j < |lines| ==> DecodeAll(lines)[j] == DecodeLine(lines[j])
  {
    forall j | 0 <= j < |lines| ensures DecodeAll(lines)[j] == DecodeLine(lines[j]) {
      DecodeAllAt(lines, j);
    }
  }

  /** What a list of saved records looks like after it is loaded again. */
  function ReloadedAll(rs: seq<AccountRecord>): (out: seq<AccountRecord>)
    ensures |out| == |rs|
    ensures forall i :: 0 <= i < |rs| ==> out[i] == Reloaded(rs[i])
  {
    if rs == [] then [] else ReloadedAll(rs[..|rs| - 1]) + [Reloaded(rs[|rs| - 1])]
  }

  /** Loading what save wrote gives every account back, in order, each as `Reloaded`. */
  lemma LoadSaved(rs: seq<AccountRecord>)
    ensures ParseLines(SaveLines(rs)) == Ok(ReloadedAll(rs))
  {
    DecodeSaved(rs);
    CollectAllParsed(DecodeAll(SaveLines(rs)), ReloadedAll(rs));
  }

  /** Every line save writes is accepted by load. */
  lemma DecodeSaved(rs: seq<AccountRecord>)
    ensures |DecodeAll(SaveLines(rs))| == |ReloadedAll(rs)|
    ensures forall i :: 0 <= i < |rs| ==> DecodeAll(SaveLines(rs))[i] == Parsed(ReloadedAll(rs)[i])
  {
    forall i | 0 <= i < |rs| ensures DecodeAll(SaveLines(rs))[i] == Parsed(ReloadedAll(rs)[i]) {
      DecodeAllAt(SaveLines(rs), i);
      DecodeEncodeLine(rs[i]);
    }
  }

  /** A run in which every line is accepted collects exactly those records. */
  lemma {:induction false} CollectAllParsed(results: seq<LineResult>, recs: seq<AccountRecord>)
    requires |results| == |recs|
    requires forall i :: 0 <= i < |results| ==> results[i] == Parsed(recs[i])
    ensures Collect(results) == Ok(recs)
  {
    if results != [] {
      var n := |results| - 1;
      CollectAllParsed(results[..n], recs[..n]);
      assert recs == recs[..n] + [recs[n]];
    }
  }

  /** When no name holds a semicolon, loading what save wrote gives exactly the same records. */
  lemma LoadSavedExact(rs: seq<AccountRecord>)
    requires forall i :: 0 <= i < |rs| ==> ';' !in rs[i].customerName
    ensures ParseLines(SaveLines(rs)) == Ok(rs)
  {
    LoadSaved(rs);
    ReloadedAllUnchanged(rs);
  }

  lemma ReloadedAllUnchanged(rs: seq<AccountRecord>)
    requires forall i :: 0 <= i < |rs| ==> ';' !in rs[i].customerName
    ensures ReloadedAll(rs) == rs
  {
    forall i | 0 <= i < |rs| ensures Reloaded(rs[i]) == rs[i] {
      RestoreEscapeName(rs[i].customerName);
    }
  }

  /** The fold over two runs of lines is the fold over each, joined. */
  lemma {:induction false} CollectConcat(a: seq<LineResult>, b: seq<LineResult>)
    ensures Collect(a + b).Ok? <==> Collect(a).Ok? && Collect(b).Ok?
    ensures Collect(a + b).Ok? ==> Collect(a + b).value == Collect(a).value + Collect(b).value
  {
    if b == [] {
      assert a + b == a;
    } else {
      var b' := b[..|b| - 1];
      CollectConcat(a, b');
      assert (a + b)[..|a + b| - 1] == a + b';
      assert (a + b)[|a + b| - 1] == b[|b| - 1];
      if Collect(a + b').Ok? {
        match b[|b| - 1]
        case Skipped =>
        case Malformed =>
        case Parsed(rec) =>
          assert Collect(a).value + Collect(b').value + [rec] == Collect(a).value + (Collect(b').value + [rec]);
      }
    }
  }

  /**
   * A line that is blank after trimming, or that splits into fewer than five
   * fields, does not abort the load and contributes nothing: the lines around
   * it load as if it were absent.
   */
  lemma SkippedLineIgnored(a: seq<string>, line: string, b: seq<string>)
    requires Trim(line) == [] || |Split(Trim(line))| < 5
    ensures ParseLines(a + [line] + b).Ok? <==> ParseLines(a + b).Ok?
    ensures ParseLines(a + b).Ok? ==> ParseLines(a + [line] + b).value == ParseLines(a + b).value
  {
    var da, db := DecodeAll(a), DecodeAll(b);
    BlankOrShortSkipped(line);
    DecodeAllConcat(a + [line], b);
    DecodeAllConcat(a, [line]);
    DecodeAllConcat(a, b);
    CollectConcat(da, [Skipped]);
    CollectConcat(da + [Skipped], db);
    CollectConcat(da, db);
    assert [Skipped][..0] == [];
  }

  /**
   * A line with an ID, balance or rate that does not parse abandons the load:
   * when the lines before it load, the whole file fails at that line's index,
   * whatever follows it.
   */
  lemma MalformedLineAbortsLoad(a: seq<string>, line: string, b: seq<string>)
    requires DecodeLine(line).Malformed?
    requires ParseLines(a).Ok?
    ensures ParseLines(a + [line] + b) == Err(|a|)
  {
    DecodeAllConcat(a + [line], b);
    DecodeAllConcat(a, [line]);
    MapSingle(DecodeLine, line);
    CollectMalformedAt(DecodeAll(a), DecodeAll(b));
  }

  /** An ID that is not a number, as in the line `checking,x,Jane,50.00,1.50`, abandons the load at that line. */
  lemma BadIdAbortsLoad(a: seq<string>, b: seq<string>)
    requires ParseLines(a).Ok?
    ensures ParseLines(a + [Join(["checking", "x", "Jane", "50.00", "1.50"])] + b) == Err(|a|)
  {
    BadIdLine();
    MalformedLineAbortsLoad(a, Join(["checking", "x", "Jane", "50.00", "1.50"]), b);
  }

  lemma BadIdLine()
    ensures DecodeLine(Join(["checking", "x", "Jane", "50.00", "1.50"])).Malformed?
  {
    var parts := ["checking", "x", "Jane", "50.00", "1.50"];
    SplitTrimJoin(parts);
    BadIdFields(parts);
  }

  lemma BadIdFields(parts: seq<string>)
    requires |parts| == 5 && parts[1] == "x"
    ensures DecodeFields(parts) == Malformed
  {
    assert !IsDigit("x"[0]);
    assert ParseInt("x").None?;
  }

  lemma CollectMalformedAt(x: seq<LineResult>, y: seq<LineResult>)
    requires Collect(x).Ok?
    ensures Collect(x + [Malformed] + y) == Err(|x|)
  {
    var r := x + [Malformed] + y;
    assert r[..|x|] == x;
    CollectFirstError(r, |x|);
  }

  lemma BlankOrShortSkipped(line: string)
    requires Trim(line) == [] || |Split(Trim(line))| < 5
    ensures DecodeLine(line) == Skipped
    ensures DecodeAll([line]) == [Skipped]
  {
    MapSingle(DecodeLine, line);
  }

  /**
   * A file holding a saved account line, a blank line and a line of only two
   * fields loads exactly one account: the two other lines are skipped without
   * abandoning the load.
   */
  lemma LoadSkipsBlankAndShortLines(r: AccountRecord, kind: Kind, id: Int32)
    ensures ParseLines([EncodeLine(r), "", Join([KindTag(kind), FormatInt(id)])]) == Ok([Reloaded(r)])
  {
    LoadOneSaved(r);
    TwoFieldLineIsShort(kind, id);
    BlankOrShortSkipped("");
    BlankOrShortSkipped(Join([KindTag(kind), FormatInt(id)]));
    TrailingSkippedLines(EncodeLine(r), "", Join([KindTag(kind), FormatInt(id)]));
  }

  lemma TrailingSkippedLines(l0: string, l1: string, l2: string)
    requires DecodeLine(l1) == Skipped && DecodeLine(l2) == Skipped
    ensures ParseLines([l0, l1, l2]) == ParseLines([l0])
  {
    var d0 := DecodeAll([l0]);
    MapThree(DecodeLine, l0, l1, l2);
    CollectSkippedAtEnd(d0 + [Skipped]);
    CollectSkippedAtEnd(d0);
  }

  /** A skipped outcome at the end of a run changes nothing. */
  lemma CollectSkippedAtEnd(d: seq<LineResult>)
    ensures Collect(d + [Skipped]) == Collect(d)
  {
    assert (d + [Skipped])[..|d|] == d;
  }

  lemma LoadOneSaved(r: AccountRecord)
    ensures ParseLines([EncodeLine(r)]) == Ok([Reloaded(r)])
  {
    LoadSaved([r]);
    assert SaveLines([r]) == [EncodeLine(r)];
    assert ReloadedAll([r]) == [Reloaded(r)];
  }

  lemma TwoFieldLineIsShort(kind: Kind, id: Int32)
    ensures |Split(Trim(Join([KindTag(kind), FormatInt(id)])))| < 5
  {
    SplitTrimJoin([KindTag(kind), FormatInt(id)]);
  }
}
