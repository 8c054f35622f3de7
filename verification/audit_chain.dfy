/** The audit log as a hash chain over two files: what recording keeps, what verifying accepts, and why a
    different history with the same digest means a hash collision. */
module AuditChain {
  import opened CoreTypes

  const DIGEST_LENGTH := 64

  datatype AuditRecord<J> = AuditRecord(timestamp: string, action: string, actor: string,
                                        resource: string, result: string, details: J)

  /** The hash and the JSON library, as functions. `parse` is None where the parser raises. */
  datatype Library<!J> = Library(hash: string -> string, asObject: AuditRecord<J> -> J, empty: J,
                                 compact: J -> string, loose: J -> string, parse: string -> Option<J>)

  predicate HexDigit(c: char) {
    '0' <= c <= '9' || 'a' <= c <= 'f'
  }

  predicate IsDigest(s: string) {
    |s| == DIGEST_LENGTH && forall c | c in s :: HexDigit(c)
  }

  /** Where `splitlines` breaks. A carriage return before a newline gives one more empty line here, which
      is skipped like every blank line. */
  predicate LineBreak(c: char) {
    c in {'\n', '\r', '\U{000b}', '\U{000c}', '\U{001c}', '\U{001d}', '\U{001e}', '\U{0085}', '\U{2028}', '\U{2029}'}
  }

  /** What `strip` removes. */
  predicate White(c: char) {
    || LineBreak(c)
    || c in {' ', '\t', '\U{001f}', '\U{00a0}', '\U{1680}', '\U{202f}', '\U{205f}', '\U{3000}'}
    || '\U{2000}' <= c <= '\U{200a}'
  }

  predicate OpensObject(s: string) {
    s != "" && s[0] == '{'
  }

  /** A text that starts with a digest and goes on with an object. No JSON text does: what starts with a
      hexadecimal digit is a number or `false`, and neither goes on with a brace. */
  predicate DigestThenObject(s: string) {
    |s| > DIGEST_LENGTH && IsDigest(s[..DIGEST_LENGTH]) && s[DIGEST_LENGTH] == '{'
  }

  /** What is assumed of the library: digests are 64 lower-case hexadecimal digits; printing then parsing
      gives back the value, in either style; no value prints as a digest followed by an object; records
      differ as objects if they differ at all, and print as objects without line breaks. */
  ghost predicate Lawful<J(!new)>(lib: Library<J>) {
    && (forall s :: IsDigest(lib.hash(s)))
    && (forall j :: lib.parse(lib.compact(j)) == Some(j) && !DigestThenObject(lib.compact(j)))
    && (forall r, q :: lib.asObject(r) == lib.asObject(q) ==> r == q)
    && (forall r :: RecordPrints(lib, r))
  }

  ghost predicate RecordPrints<J>(lib: Library<J>, r: AuditRecord<J>) {
    var j := lib.asObject(r);
    && lib.parse(lib.loose(j)) == Some(j)
    && OpensObject(lib.compact(j)) && OpensObject(lib.loose(j))
    && forall c | c in lib.loose(j) :: !LineBreak(c)
  }

  // ---------------------------------------------------------------- text

  function Split(s: string, line: string): seq<string> {
    if s == "" then if line == "" then [] else [line]
    else if LineBreak(s[0]) then [line] + Split(s[1..], "")
    else Split(s[1..], line + [s[0]])
  }

  function Lines(s: string): seq<string> {
    Split(s, "")
  }

  function StripLeft(s: string): string {
    if s != "" && White(s[0]) then StripLeft(s[1..]) else s
  }

  function StripRight(s: string): string {
    if s != "" && White(s[|s| - 1]) then StripRight(s[..|s| - 1]) else s
  }

  function Strip(s: string): string {
    StripRight(StripLeft(s))
  }

  predicate Blank(line: string) {
    Strip(line) == ""
  }

  // ---------------------------------------------------------------- the chain

  /** The digest after a list of payloads: each is hashed behind the digest so far. */
  function Chain(hash: string -> string, payloads: seq<string>): string {
    if payloads == [] then ""
    else hash(Chain(hash, payloads[..|payloads| - 1]) + payloads[|payloads| - 1])
  }

  function Compacts<J>(lib: Library<J>, values: seq<J>): (r: seq<string>)
    ensures |r| == |values| && forall i | 0 <= i < |values| :: r[i] == lib.compact(values[i])
  {
    seq(|values|, i requires 0 <= i < |values| => lib.compact(values[i]))
  }

  function Objects<J>(lib: Library<J>, records: seq<AuditRecord<J>>): (r: seq<J>)
    ensures |r| == |records| && forall i | 0 <= i < |records| :: r[i] == lib.asObject(records[i])
  {
    seq(|records|, i requires 0 <= i < |records| => lib.asObject(records[i]))
  }

  /** The values on the lines that are not blank, or None if one of those lines is not JSON. */
  function Values<J>(lib: Library<J>, lines: seq<string>): Option<seq<J>> {
    if lines == [] then Some([])
    else
      var last := lines[|lines| - 1];
      match Values(lib, lines[..|lines| - 1])
      case None => None
      case Some(values) =>
        if Blank(last) then Some(values)
        else match lib.parse(last) case None => None case Some(j) => Some(values + [j])
  }

  /** The two files, None when a file does not exist. */
  datatype Files = Files(log: Option<string>, digest: Option<string>)

  /** The answer of the check on two configured files; None when it raises. */
  function Verdict<J>(lib: Library<J>, files: Files): Option<bool> {
    if files.log.None? || files.digest.None? then Some(false)
    else match Values(lib, Lines(files.log.value))
         case None => None
         case Some(values) => Some(Chain(lib.hash, Compacts(lib, values)) == Strip(files.digest.value))
  }

  /** What recording does to the two files. */
  function Recorded<J>(lib: Library<J>, files: Files, r: AuditRecord<J>): Files {
    var previous := if files.digest.None? then "" else Strip(files.digest.value);
    var before := if files.log.None? then "" else files.log.value;
    Files(Some(before + lib.loose(lib.asObject(r)) + "\n"), Some(lib.hash(previous + lib.compact(lib.asObject(r)))))
  }

  /** One call of `record_audit`, on a service with auditing on or off. A restart changes no file. */
  datatype Call<J> = Call(enabled: bool, record: AuditRecord<J>)

  function AfterCalls<J>(lib: Library<J>, files: Files, calls: seq<Call<J>>): Files {
    if calls == [] then files
    else
      var before, last := AfterCalls(lib, files, calls[..|calls| - 1]), calls[|calls| - 1];
      if last.enabled then Recorded(lib, before, last.record) else before
  }

  function RecordsOf<J>(calls: seq<Call<J>>): seq<AuditRecord<J>> {
    if calls == [] then []
    else
      var last := calls[|calls| - 1];
      RecordsOf(calls[..|calls| - 1]) + if last.enabled then [last.record] else []
  }

  // ---------------------------------------------------------------- lemmas about text

  /** A text that ends at a line break can be split apart from what follows it. */
  lemma {:induction false} SplitAppend(a: string, b: string, line: string)
    requires if a == "" then line == "" else LineBreak(a[|a| - 1])
    ensures Split(a + b, line) == Split(a, line) + Split(b, "")
  {
    hide LineBreak;
    if a == "" {
      assert a + b == b;
    } else {
      assert (a + b)[1..] == a[1..] + b;
      if LineBreak(a[0]) {
        SplitAppend(a[1..], b, "");
      } else {
        SplitAppend(a[1..], b, line + [a[0]]);
      }
    }
  }

  lemma {:induction false} SplitLine(s: string, line: string)
    requires forall c | c in s :: !LineBreak(c)
    ensures Split(s + "\n", line) == [line + s]
  {
    hide LineBreak;
    assert LineBreak('\n') by { NewlineBreaks(); }
    if s == "" {
      assert s + "\n" == "\n" && line + s == line;
      assert Split("\n", line) == [line] + Split("", "");
    } else {
      assert (s + "\n")[1..] == s[1..] + "\n";
      SplitLine(s[1..], line + [s[0]]);
      assert line + [s[0]] + s[1..] == line + s;
    }
  }

  lemma NewlineBreaks()
    ensures LineBreak('\n')
  {
  }

  lemma {:induction false} StripLeftKeeps(s: string)
    requires s != "" && !White(s[0])
    ensures StripLeft(s) == s && StripRight(s) != ""
    decreases |s|
  {
    hide White;
    if White(s[|s| - 1]) {
      StripLeftKeeps(s[..|s| - 1]);
    }
  }

  /** A digest is read back as it was written. */
  lemma DigestSurvivesStrip(s: string)
    requires IsDigest(s)
    ensures Strip(s) == s
  {
    hide White;
    HexIsNotWhite(s[0]);
    HexIsNotWhite(s[|s| - 1]);
  }

  lemma HexIsNotWhite(c: char)
    requires HexDigit(c)
    ensures !White(c) && c != '{'
  {
  }

  lemma ObjectIsNotBlank(s: string)
    requires OpensObject(s)
    ensures !Blank(s)
  {
    StripLeftKeeps(s);
  }

  /** A last line without a line break is a line. */
  lemma {:induction false} UnterminatedLine(s: string, line: string)
    requires line + s != "" && forall c | c in s :: !LineBreak(c)
    ensures Split(s, line) == [line + s]
  {
    hide LineBreak;
    if s == "" {
      assert line + s == line;
    } else {
      UnterminatedLine(s[1..], line + [s[0]]);
      assert line + [s[0]] + s[1..] == line + s;
    }
  }

  predicate AllWhite(s: string) {
    forall c | c in s :: White(c)
  }

  lemma {:induction false} StripLeftCuts(s: string) returns (left: string)
    ensures s == left + StripLeft(s) && AllWhite(left)
    ensures StripLeft(s) == "" || !White(StripLeft(s)[0])
  {
    hide White;
    if s != "" && White(s[0]) {
      var rest := StripLeftCuts(s[1..]);
      left := [s[0]] + rest;
      assert s == [s[0]] + s[1..];
    } else {
      left := "";
    }
  }

  lemma {:induction false} StripRightCuts(s: string) returns (right: string)
    ensures s == StripRight(s) + right && AllWhite(right)
    ensures StripRight(s) == "" || (!White(StripRight(s)[|StripRight(s)| - 1]) && StripRight(s)[0] == s[0])
    decreases |s|
  {
    hide White;
    if s != "" && White(s[|s| - 1]) {
      var rest := StripRightCuts(s[..|s| - 1]);
      right := rest + [s[|s| - 1]];
      assert s == s[..|s| - 1] + [s[|s| - 1]];
    } else {
      right := "";
    }
  }

  /** Stripping takes white space off both ends and nothing else. */
  lemma StripTakesOffWhite(s: string) returns (left: string, right: string)
    ensures s == left + Strip(s) + right && AllWhite(left) && AllWhite(right)
    ensures var core := Strip(s); core != "" ==> !White(core[0]) && !White(core[|core| - 1])
  {
    hide White;
    left := StripLeftCuts(s);
    right := StripRightCuts(StripLeft(s));
  }

  /** A list of lines is read part by part; a part that cannot be read spoils the whole. */
  lemma {:induction false} ValuesJoin<J(!new)>(lib: Library<J>, a: seq<string>, b: seq<string>)
    ensures Values(lib, a + b)
            == match (Values(lib, a), Values(lib, b))
               case (Some(x), Some(y)) => Some(x + y)
               case _ => None
  {
    hide Blank;
    if b == [] {
      assert a + b == a;
      assert forall x: seq<J> :: x + [] == x;
    } else {
      var k := |b| - 1;
      assert (a + b)[..|a + b| - 1] == a + b[..k];
      ValuesJoin(lib, a, b[..k]);
      assert forall x: seq<J>, y: seq<J>, j: J :: x + y + [j] == x + (y + [j]);
    }
  }

  /** A blank line is skipped, a line that is not JSON cannot be read, and any other holds its value. */
  lemma ValuesOfLine<J(!new)>(lib: Library<J>, line: string)
    ensures Values(lib, [line])
            == if Blank(line) then Some([])
               else match lib.parse(line) case None => None case Some(j) => Some([j])
  {
    hide Blank;
    assert [line][..0] == [];
    assert forall j: J :: [] + [j] == [j];
  }

  /** Appending one printed record adds one line. */
  lemma LogGrowsByLine(log: string, line: string)
    requires log == "" || log[|log| - 1] == '\n'
    requires forall c | c in line :: !LineBreak(c)
    ensures Lines(log + line + "\n") == Lines(log) + [line]
  {
    hide Split;
    NewlineBreaks();
    SplitAppend(log, line + "\n", "");
    assert log + line + "\n" == log + (line + "\n");
    SplitLine(line, "");
    assert "" + line == line;
  }

  // ---------------------------------------------------------------- recorded chains verify

  /** The log holds these records, line by line, and the other file their digest. */
  predicate Holds<J(==)>(lib: Library<J>, files: Files, records: seq<AuditRecord<J>>) {
    if records == [] then files == Files(None, None)
    else
      && files.log.Some? && files.log.value != "" && files.log.value[|files.log.value| - 1] == '\n'
      && Values(lib, Lines(files.log.value)) == Some(Objects(lib, records))
      && files.digest == Some(Chain(lib.hash, Compacts(lib, Objects(lib, records))))
  }

  lemma ChainSnoc<J>(lib: Library<J>, records: seq<AuditRecord<J>>, r: AuditRecord<J>)
    ensures Objects(lib, records + [r]) == Objects(lib, records) + [lib.asObject(r)]
    ensures Chain(lib.hash, Compacts(lib, Objects(lib, records + [r])))
            == lib.hash(Chain(lib.hash, Compacts(lib, Objects(lib, records))) + lib.compact(lib.asObject(r)))
  {
    ChainOneMore(lib, Objects(lib, records), lib.asObject(r));
  }

  lemma ValuesSnoc<J>(lib: Library<J>, lines: seq<string>, line: string, values: seq<J>, j: J)
    requires Values(lib, lines) == Some(values) && !Blank(line) && lib.parse(line) == Some(j)
    ensures Values(lib, lines + [line]) == Some(values + [j])
  {
  }

  /** Recording keeps the files in step: one more line, and the digest of one more record. */
  lemma RecordingExtends<J(!new)>(lib: Library<J>, files: Files, records: seq<AuditRecord<J>>, r: AuditRecord<J>)
    requires Lawful(lib) && Holds(lib, files, records)
    ensures Holds(lib, Recorded(lib, files, r), records + [r])
  {
    hide Lines, Blank, Strip, Chain, Values, IsDigest, LineBreak, Lawful;
    Laws(lib, r);
    var log := if files.log.None? then "" else files.log.value;
    var line := lib.loose(lib.asObject(r));
    assert Values(lib, Lines(log)) == Some(Objects(lib, records)) by { NoLines(lib); }
    LogGrowsByLine(log, line);
    ObjectIsNotBlank(line);
    ValuesSnoc(lib, Lines(log), line, Objects(lib, records), lib.asObject(r));
    ChainSnoc(lib, records, r);
    if records == [] {
      assert Objects(lib, records) == [] && Compacts(lib, Objects(lib, records)) == [];
      NoPayloads(lib.hash);
    } else {
      ChainIsDigest(lib, Compacts(lib, Objects(lib, records)));
      DigestSurvivesStrip(files.digest.value);
    }
  }

  lemma Laws<J(!new)>(lib: Library<J>, r: AuditRecord<J>)
    requires Lawful(lib)
    ensures RecordPrints(lib, r)
  {
  }

  lemma NoLines<J>(lib: Library<J>)
    ensures Lines("") == [] && Values(lib, []) == Some([])
  {
  }

  lemma NoPayloads(hash: string -> string)
    ensures Chain(hash, []) == ""
  {
  }

  lemma ChainIsDigest<J(!new)>(lib: Library<J>, payloads: seq<string>)
    requires Lawful(lib) && payloads != []
    ensures IsDigest(Chain(lib.hash, payloads))
  {
  }

  lemma {:induction false} CallsKeepHolding<J(!new)>(lib: Library<J>, calls: seq<Call<J>>)
    requires Lawful(lib)
    ensures Holds(lib, AfterCalls(lib, Files(None, None), calls), RecordsOf(calls))
  {
    hide Lawful, Holds, Recorded;
    if calls == [] {
      NothingHolds(lib);
    } else {
      var init, last := calls[..|calls| - 1], calls[|calls| - 1];
      CallsKeepHolding(lib, init);
      if last.enabled {
        RecordingExtends(lib, AfterCalls(lib, Files(None, None), init), RecordsOf(init), last.record);
      }
      assert !last.enabled ==> RecordsOf(calls) == RecordsOf(init);
    }
  }

  lemma NothingHolds<J>(lib: Library<J>)
    ensures Holds(lib, Files(None, None), [])
  {
  }

  /** From missing files, any calls of `record_audit`, across restarts too, leave the check answering
      true, exactly if at least one of them recorded something. */
  lemma RecordedChainVerifies<J(!new)>(lib: Library<J>, calls: seq<Call<J>>)
    requires Lawful(lib)
    ensures Verdict(lib, AfterCalls(lib, Files(None, None), calls)) == Some(RecordsOf(calls) != [])
  {
    hide Lawful, Values, Lines, Chain, Strip, AfterCalls, RecordsOf;
    CallsKeepHolding(lib, calls);
    if RecordsOf(calls) != [] {
      ChainIsDigest(lib, Compacts(lib, Objects(lib, RecordsOf(calls))));
      DigestSurvivesStrip(Chain(lib.hash, Compacts(lib, Objects(lib, RecordsOf(calls)))));
    }
  }

  // ---------------------------------------------------------------- tampering

  /** No answer but false without both files. */
  lemma BothFilesAreNeeded<J>(lib: Library<J>, files: Files)
    ensures files.log == None || files.digest == None ==> Verdict(lib, files) == Some(false)
    ensures Verdict(lib, files) == Some(true) ==> files.log.Some? && files.digest.Some?
  {
  }

  /** Deleting either file, or both, after anything was recorded turns the answer from true to false. */
  lemma DeletionIsNoticed<J(!new)>(lib: Library<J>, calls: seq<Call<J>>)
    requires Lawful(lib) && RecordsOf(calls) != []
    ensures var files := AfterCalls(lib, Files(None, None), calls);
            && Verdict(lib, files) == Some(true)
            && Verdict(lib, files.(log := None)) == Some(false)
            && Verdict(lib, files.(digest := None)) == Some(false)
            && Verdict(lib, Files(None, None)) == Some(false)
  {
    hide Lawful, AfterCalls, RecordsOf;
    RecordedChainVerifies(lib, calls);
  }

  /** None of these payloads can be taken for a digest and an object behind it. */
  predicate Separable(payloads: seq<string>) {
    forall p | p in payloads :: !DigestThenObject(p)
  }

  predicate AllObjects(payloads: seq<string>) {
    forall p | p in payloads :: OpensObject(p)
  }

  /** Two different lists of payloads with one digest show two texts with one hash. One of them holds
      objects; the other may hold anything that JSON can print. */
  lemma {:induction false} SameDigestCollides<J(!new)>(lib: Library<J>, ps: seq<string>, qs: seq<string>)
    returns (x: string, y: string)
    requires Lawful(lib) && Separable(ps) && AllObjects(qs)
    requires ps != qs && Chain(lib.hash, ps) == Chain(lib.hash, qs)
    ensures x != y && lib.hash(x) == lib.hash(y)
    decreases |ps|
  {
    hide Lawful, IsDigest;
    assert ps != [] && qs != [] by { NeitherIsEmpty(lib, ps, qs); }
    var p, q := |ps| - 1, |qs| - 1;
    assert ps == ps[..p] + [ps[p]] && qs == qs[..q] + [qs[q]];
    x, y := Chain(lib.hash, ps[..p]) + ps[p], Chain(lib.hash, qs[..q]) + qs[q];
    if x == y {
      SameTextSplits(lib, ps[..p], ps[p], qs[..q], qs[q]);
      x, y := SameDigestCollides(lib, ps[..p], qs[..q]);
    }
  }

  lemma NeitherIsEmpty<J(!new)>(lib: Library<J>, ps: seq<string>, qs: seq<string>)
    requires Lawful(lib) && ps != qs && Chain(lib.hash, ps) == Chain(lib.hash, qs)
    ensures ps != [] && qs != []
  {
  }

  /** A digest and a payload joined can be told apart again. */
  lemma SameTextSplits<J(!new)>(lib: Library<J>, ps: seq<string>, p: string, qs: seq<string>, q: string)
    requires Lawful(lib) && !DigestThenObject(p) && OpensObject(q)
    requires Chain(lib.hash, ps) + p == Chain(lib.hash, qs) + q
    ensures p == q && Chain(lib.hash, ps) == Chain(lib.hash, qs)
  {
    hide Lawful, HexDigit;
    var a, b := Chain(lib.hash, ps), Chain(lib.hash, qs);
    if ps != [] { ChainIsDigest(lib, ps); HexIsNotWhite(a[0]); }
    if qs != [] { ChainIsDigest(lib, qs); }
    assert (a + p)[..|a|] == a && (b + q)[..|b|] == b;
    assert (a + p)[|a|..] == p && (b + q)[|b|..] == q;
    assert ps == [] && qs != [] ==> p == b + q;
    assert ps != [] ==> (a + p)[0] == a[0];
  }

  lemma CompactsDiffer<J(!new)>(lib: Library<J>, a: seq<J>, b: seq<J>)
    requires Lawful(lib)
    ensures Compacts(lib, a) == Compacts(lib, b) ==> a == b
  {
  }

  /** Two different histories, of any lengths, never leave the same digest unless two texts have the
      same hash. */
  lemma DifferentHistoriesCollide<J(!new)>(lib: Library<J>, calls: seq<Call<J>>, others: seq<Call<J>>)
    returns (x: string, y: string)
    requires Lawful(lib) && RecordsOf(calls) != RecordsOf(others)
    requires AfterCalls(lib, Files(None, None), calls).digest == AfterCalls(lib, Files(None, None), others).digest
    ensures x != y && lib.hash(x) == lib.hash(y)
  {
    hide Lawful, AfterCalls, RecordsOf, Chain, Values, Lines;
    var a, b := Objects(lib, RecordsOf(calls)), Objects(lib, RecordsOf(others));
    CallsKeepHolding(lib, calls);
    CallsKeepHolding(lib, others);
    ObjectsDiffer(lib, RecordsOf(calls), RecordsOf(others));
    CompactsDiffer(lib, a, b);
    NothingIsAmbiguous(lib, a);
    RecordsAreObjects(lib, RecordsOf(others));
    x, y := SameDigestCollides(lib, Compacts(lib, a), Compacts(lib, b));
  }

  lemma ObjectsDiffer<J(!new)>(lib: Library<J>, a: seq<AuditRecord<J>>, b: seq<AuditRecord<J>>)
    requires Lawful(lib)
    ensures Objects(lib, a) == Objects(lib, b) ==> a == b
  {
  }

  lemma RecordsAreObjects<J(!new)>(lib: Library<J>, records: seq<AuditRecord<J>>)
    requires Lawful(lib)
    ensures AllObjects(Compacts(lib, Objects(lib, records)))
  {
    forall i | 0 <= i < |records|
      ensures OpensObject(lib.compact(lib.asObject(records[i])))
    {
      Laws(lib, records[i]);
    }
  }

  lemma NothingIsAmbiguous<J(!new)>(lib: Library<J>, values: seq<J>)
    requires Lawful(lib)
    ensures Separable(Compacts(lib, values))
  {
  }

  /** Tamper evidence: if the log of a recorded history is replaced by any text at all, the check answers
      true only if the lines of that text hold the recorded values, in order, or there is a hash
      collision; and for a text with those values it does answer true. */
  lemma AcceptedLogIsTheRecordedOne<J(!new)>(lib: Library<J>, calls: seq<Call<J>>, log: string)
    returns (x: string, y: string)
    requires Lawful(lib) && RecordsOf(calls) != []
    ensures var files := AfterCalls(lib, Files(None, None), calls).(log := Some(log));
            Verdict(lib, files) == Some(true) ==>
              || Values(lib, Lines(log)) == Some(Objects(lib, RecordsOf(calls)))
              || (x != y && lib.hash(x) == lib.hash(y))
    ensures var files := AfterCalls(lib, Files(None, None), calls).(log := Some(log));
            Values(lib, Lines(log)) == Some(Objects(lib, RecordsOf(calls))) ==> Verdict(lib, files) == Some(true)
  {
    hide Lawful, AfterCalls, RecordsOf, Chain, Values, Lines, Strip;
    x, y := "", "";
    var objects := Objects(lib, RecordsOf(calls));
    CallsKeepHolding(lib, calls);
    ChainIsDigest(lib, Compacts(lib, objects));
    DigestSurvivesStrip(Chain(lib.hash, Compacts(lib, objects)));
    match Values(lib, Lines(log))
    case None =>
    case Some(values) =>
      if values != objects && Chain(lib.hash, Compacts(lib, values)) == Chain(lib.hash, Compacts(lib, objects)) {
        CompactsDiffer(lib, values, objects);
        NothingIsAmbiguous(lib, values);
        RecordsAreObjects(lib, RecordsOf(calls));
        x, y := SameDigestCollides(lib, Compacts(lib, values), Compacts(lib, objects));
      }
  }

  // ---------------------------------------------------------------- the service

  /** A file on disk. */
  class AuditFile {
    var content: Option<string>

    constructor (content: Option<string>)
      ensures this.content == content
    {
      this.content := content;
    }
  }

  class BonusSecurityService<J(!new)> {
    const lib: Library<J>
    const enableAudit: bool
    const logPath: AuditFile?
    const hashPath: AuditFile?
    var auditLog: seq<AuditRecord<J>>

    /** The two paths name two files. */
    predicate Distinct() {
      logPath != null ==> logPath != hashPath
    }

    ghost function Stored(): Files
      reads logPath, hashPath
    {
      Files(if logPath == null then None else logPath.content, if hashPath == null then None else hashPath.content)
    }

    /** Starting a service, for the first time or again, touches no file. */
    constructor (lib: Library<J>, enableAudit: bool, logPath: AuditFile?, hashPath: AuditFile?)
      ensures this.lib == lib && this.enableAudit == enableAudit
      ensures this.logPath == logPath && this.hashPath == hashPath && auditLog == []
    {
      this.lib, this.enableAudit, this.logPath, this.hashPath, auditLog := lib, enableAudit, logPath, hashPath, [];
    }

    method RecordHash(r: AuditRecord<J>) returns (digest: string)
      requires Distinct()
      modifies logPath, hashPath
      ensures digest == lib.hash((if old(Stored()).digest.Some? then Strip(old(Stored()).digest.value) else "")
                                 + lib.compact(lib.asObject(r)))
      ensures logPath != null ==>
                logPath.content == Some((if old(Stored()).log.Some? then old(Stored()).log.value else "")
                                        + lib.loose(lib.asObject(r)) + "\n")
      ensures Recorded(lib, old(Stored()), r).digest == Some(digest)
      ensures logPath != null ==> logPath.content == Recorded(lib, old(Stored()), r).log
      ensures hashPath != null ==> hashPath.content == Some(digest)
    {
      var previous := "";
      if hashPath != null && hashPath.content.Some? { previous := Strip(hashPath.content.value); }
      var payload := lib.compact(lib.asObject(r));
      digest := lib.hash(previous + payload);
      if logPath != null {
        var before := if logPath.content.Some? then logPath.content.value else "";
        logPath.content := Some(before + lib.loose(lib.asObject(r)) + "\n");
      }
      if hashPath != null { hashPath.content := Some(digest); }
    }

    method RecordAudit(timestamp: string, action: string, actor: string, resource: string, result: string,
                       details: Option<J>)
      requires Distinct()
      modifies this`auditLog, logPath, hashPath
      ensures var r := AuditRecord(timestamp, action, actor, resource, result,
                                   if details.None? then lib.empty else details.value);
              && auditLog == (if enableAudit then old(auditLog) + [r] else old(auditLog))
              && (logPath != null && hashPath != null ==>
                    Stored() == if enableAudit then Recorded(lib, old(Stored()), r) else old(Stored()))
      ensures !enableAudit ==> Stored() == old(Stored())
    {
      if !enableAudit { return; }
      var given := if details.None? then lib.empty else details.value;
      var record := AuditRecord(timestamp, action, actor, resource, result, given);
      auditLog := auditLog + [record];
      var _ := RecordHash(record);
    }

    /** None when a line that is not blank cannot be parsed. */
    method VerifyAuditChain() returns (answer: Option<bool>)
      ensures answer == if logPath == null || hashPath == null then Some(true) else Verdict(lib, Stored())
      ensures logPath != null && hashPath != null && (logPath.content == None || hashPath.content == None) ==>
                answer == Some(false)
    {
      hide Lines, Blank, Strip, Values, Chain;
      if logPath == null || hashPath == null { return Some(true); }
      if logPath.content.None? || hashPath.content.None? { return Some(false); }
      var previous := "";
      var lines := Lines(logPath.content.value);
      ghost var values: seq<J> := [];
      NothingRead(lib, lines);
      for i := 0 to |lines|
        invariant Values(lib, lines[..i]) == Some(values)
        invariant previous == Chain(lib.hash, Compacts(lib, values))
      {
        ReadingOneMore(lib, lines, i);
        if !Blank(lines[i]) {
          match lib.parse(lines[i])
          case None =>
            StaysUnparsed(lib, lines, i + 1);
            return None;
          case Some(j) =>
            var payload := lib.compact(j);
            previous := lib.hash(previous + payload);
            ChainOneMore(lib, values, j);
            values := values + [j];
        }
      }
      assert lines[..|lines|] == lines;
      answer := Some(previous == Strip(hashPath.content.value));
    }
  }

  lemma NothingRead<J>(lib: Library<J>, lines: seq<string>)
    ensures Values(lib, lines[..0]) == Some([]) && Chain(lib.hash, Compacts(lib, [])) == ""
  {
  }

  lemma ReadingOneMore<J>(lib: Library<J>, lines: seq<string>, n: nat)
    requires n < |lines| && Values(lib, lines[..n]).Some?
    ensures Values(lib, lines[..n + 1])
            == if Blank(lines[n]) then Values(lib, lines[..n])
               else match lib.parse(lines[n])
                    case None => None
                    case Some(j) => Some(Values(lib, lines[..n]).value + [j])
  {
    hide Blank;
    assert lines[..n + 1][..n] == lines[..n];
  }

  lemma ChainOneMore<J>(lib: Library<J>, values: seq<J>, j: J)
    ensures Chain(lib.hash, Compacts(lib, values + [j]))
            == lib.hash(Chain(lib.hash, Compacts(lib, values)) + lib.compact(j))
  {
    assert Compacts(lib, values + [j])[..|values|] == Compacts(lib, values);
  }

  lemma {:induction false} StaysUnparsed<J>(lib: Library<J>, lines: seq<string>, n: nat)
    requires n <= |lines| && Values(lib, lines[..n]) == None
    ensures Values(lib, lines) == None
    decreases |lines| - n
  {
    if n == |lines| {
      assert lines[..n] == lines;
    } else {
      assert lines[..n + 1][..n] == lines[..n];
      StaysUnparsed(lib, lines, n + 1);
    }
  }
}
