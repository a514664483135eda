/** AWS ingestion as a step system: a producer that reads an offer file, a
    bounded channel, and the storing consumer (aws/ingester.go, ingestion.go). */
module Pipeline {
  import opened Wrappers
  import opened Store
  import opened Ingestion
  import opened ConsumerSteps

  // ----- the offer file -----

  datatype Line = Row(Cells: seq<string>) | Unreadable(Message: string)

  datatype Parsed = Record(Value: WithProduct) | Malformed(Reason: string)

  // How a row is read under a header, and which records are wanted.
  datatype Config = Config(Parse: (seq<string>, seq<string>) -> Parsed, Filter: WithProduct -> bool)

  // What has been read of a file: its header, the wanted records, and the error
  // that ended the reading.
  datatype Reader = Reader(Header: Option<seq<string>>, Accepted: seq<WithProduct>, Stop: Option<string>)

  function ReadLine(cfg: Config, r: Reader, line: Line): Reader {
    if r.Stop.Some? then r else
      match line
      case Unreadable(m) => r.(Stop := Some(m))
      case Row(cells) =>
        if r.Header.None? then
          // Metadata rows have two columns; the first wider row is the header.
          if |cells| > 2 then r.(Header := Some(cells)) else r
        else
          match cfg.Parse(r.Header.value, cells)
          case Malformed(m) => r.(Stop := Some(m))
          case Record(pp) => if cfg.Filter(pp) then r.(Accepted := r.Accepted + [pp]) else r
  }

  function ReadLines(cfg: Config, lines: seq<Line>): Reader {
    if lines == [] then Reader(None, [], None)
    else ReadLine(cfg, ReadLines(cfg, lines[..|lines| - 1]), lines[|lines| - 1])
  }

  // The error of a whole file: one without a header ends in an error too.
  function FileError(cfg: Config, lines: seq<Line>): Option<string> {
    var r := ReadLines(cfg, lines);
    if r.Stop.Some? then r.Stop else if r.Header.None? then Some("EOF") else None
  }

  lemma ReadNext(cfg: Config, lines: seq<Line>, line: Line)
    ensures ReadLines(cfg, lines + [line]) == ReadLine(cfg, ReadLines(cfg, lines), line)
  {
    assert (lines + [line])[..|lines|] == lines;
  }

  lemma {:induction false} ReadMore(cfg: Config, lines: seq<Line>, more: seq<Line>)
    ensures ReadLines(cfg, lines).Accepted <= ReadLines(cfg, lines + more).Accepted
    ensures ReadLines(cfg, lines).Stop.Some? ==> ReadLines(cfg, lines + more) == ReadLines(cfg, lines)
    decreases |more|
  {
    if more == [] {
      assert lines + more == lines;
    } else {
      assert (lines + more)[..|lines + more| - 1] == lines + more[..|more| - 1];
      ReadMore(cfg, lines, more[..|more| - 1]);
    }
  }

  lemma ReadUpTo(cfg: Config, file: seq<Line>, i: nat)
    requires i < |file|
    ensures ReadLines(cfg, file[..i + 1]) == ReadLine(cfg, ReadLines(cfg, file[..i]), file[i])
    ensures ReadLines(cfg, file[..i + 1]).Stop.Some? ==> ReadLines(cfg, file) == ReadLines(cfg, file[..i + 1])
  {
    assert file[..i + 1] == file[..i] + [file[i]];
    ReadNext(cfg, file[..i], file[i]);
    assert file == file[..i + 1] + file[i + 1..];
    ReadMore(cfg, file[..i + 1], file[i + 1..]);
  }

  /** The body of the producer goroutine when nobody interrupts it: the header
      search, then the row loop. */
  method ReadFile(cfg: Config, file: seq<Line>) returns (sent: seq<WithProduct>, err: Option<string>)
    ensures sent == ReadLines(cfg, file).Accepted && err == FileError(cfg, file)
  {
    sent := [];
    var i, header := 0, [];
    while true
      invariant i <= |file| && ReadLines(cfg, file[..i]) == Reader(None, [], None)
      decreases |file| - i
    {
      if i == |file| {
        assert file[..i] == file;
        return sent, Some("EOF");
      }
      ReadUpTo(cfg, file, i);
      i := i + 1;
      match file[i - 1]
      case Unreadable(m) => return sent, Some(m);
      case Row(cells) =>
        if |cells| > 2 {
          header := cells;
          break;
        }
    }
    while i < |file|
      invariant i <= |file| && ReadLines(cfg, file[..i]) == Reader(Some(header), sent, None)
    {
      ReadUpTo(cfg, file, i);
      i := i + 1;
      match file[i - 1]
      case Unreadable(m) => return sent, Some(m);
      case Row(cells) =>
        match cfg.Parse(header, cells)
        case Malformed(m) => return sent, Some(m);
        case Record(pp) =>
          if cfg.Filter(pp) {
            sent := sent + [pp];
          }
    }
    assert file[..i] == file;
    err := None;
  }

  // ----- the system -----

  datatype Producer =
    | Seeking
    | Checking
    | Reading
    | Sending(Held: WithProduct)
    | Closed

  // Why the producer closed the channel with an error.
  datatype Cause = Interrupted | BrokenFile(Message: string) {
    function Text(): string {
      if Interrupted? then "context canceled" else Message
    }
  }

  datatype Sys = Sys(
    Unread: seq<Line>,
    Read: seq<Line>,
    Header: Option<seq<string>>,
    Producer: Producer,
    Err: Option<Cause>,
    Cap: nat,
    Buffer: seq<WithProduct>,
    Storing: Storing,
    Result: Option<Option<IngestError>>,
    Cancelled: bool)

  // The fixed parts of a run.
  datatype Setup = Setup(Cfg: Config, Env: Env, DB: Database, File: seq<Line>, Cap: nat) {
    function Start(): Consumer {
      Consumer(DB, map[])
    }

    // The wanted records of the file, up to the row that ends the reading.
    function Wanted(): seq<WithProduct> {
      ReadLines(Cfg, File).Accepted
    }
  }

  function Init(p: Setup): Sys {
    Sys(p.File, [], None, Seeking, None, p.Cap, [], Fresh(p.DB), None, false)
  }

  datatype Step = Seek | Check | ReadRow | Send | HandOver | Receive | UpsertProduct | UpsertPrice | Return | Cancel

  // The deferred cancellation is part of Return; Cancel is the caller's.
  predicate Enabled(s: Sys, step: Step) {
    match step
    case Seek => s.Producer.Seeking?
    case Check => s.Producer.Checking?
    case ReadRow => s.Producer.Reading? && s.Header.Some?
    case Send => s.Producer.Sending? && |s.Buffer| < s.Cap
    case HandOver => s.Producer.Sending? && s.Buffer == [] && Listens(s)
    case Receive => s.Buffer != [] && Listens(s)
    case UpsertProduct => s.Storing.CanUpsertProduct()
    case UpsertPrice => s.Storing.CanUpsertPrice()
    case Return => s.Result.None? && (s.Storing.Stage.Failing? || Drained(s))
    case Cancel => !s.Cancelled
  }

  // The consumer waits at the channel.
  predicate Listens(s: Sys) {
    s.Storing.Stage.Idle? && s.Result.None?
  }

  // The channel is closed and empty, and so ends the consumer's loop.
  predicate Drained(s: Sys) {
    s.Storing.Stage.Idle? && s.Buffer == [] && s.Producer.Closed?
  }

  function Close(s: Sys, err: Option<Cause>): Sys {
    s.(Producer := Closed, Err := err)
  }

  // Reads the header, skipping the metadata rows.
  function DoSeek(s: Sys): Sys {
    if s.Unread == [] then Close(s, Some(BrokenFile("EOF"))) else
      var line, next := s.Unread[0], s.(Unread := s.Unread[1..], Read := s.Read + [s.Unread[0]]);
      match line
      case Unreadable(m) => Close(next, Some(BrokenFile(m)))
      case Row(cells) => if |cells| > 2 then next.(Header := Some(cells), Producer := Checking) else next
  }

  // Reads, parses and filters one row.
  function DoRead(cfg: Config, s: Sys): Sys
    requires s.Header.Some?
  {
    if s.Unread == [] then Close(s, None) else
      var line, next := s.Unread[0], s.(Unread := s.Unread[1..], Read := s.Read + [s.Unread[0]]);
      match line
      case Unreadable(m) => Close(next, Some(BrokenFile(m)))
      case Row(cells) =>
        match cfg.Parse(s.Header.value, cells)
        case Malformed(m) => Close(next, Some(BrokenFile(m)))
        case Record(pp) => if cfg.Filter(pp) then next.(Producer := Sending(pp)) else next.(Producer := Checking)
  }

  // What the consumer returns: the failed upsert, or else the ingester's error.
  function ReturnOf(s: Sys): Option<IngestError> {
    if s.Storing.Stage.Failing? then Some(UpsertFailed(s.Storing.Stage.Error))
    else if s.Err.Some? then Some(IngesterFailed(s.Err.value.Text()))
    else None
  }

  ghost function Do(p: Setup, s: Sys, step: Step): Sys
    requires Enabled(s, step)
  {
    match step
    case Seek => DoSeek(s)
    case Check => if s.Cancelled then Close(s, Some(Interrupted)) else s.(Producer := Reading)
    case ReadRow => DoRead(p.Cfg, s)
    case Send => s.(Buffer := s.Buffer + [s.Producer.Held], Producer := Checking)
    case HandOver => s.(Producer := Checking, Storing := s.Storing.Pick(s.Producer.Held))
    case Receive => s.(Buffer := s.Buffer[1..], Storing := s.Storing.Pick(s.Buffer[0]))
    case UpsertProduct => s.(Storing := s.Storing.WithProductStored(p.Env))
    case UpsertPrice => s.(Storing := s.Storing.WithPriceStored(p.Env))
    case Return => s.(Result := Some(ReturnOf(s)), Cancelled := true)
    case Cancel => s.(Cancelled := true)
  }

  ghost predicate Run(p: Setup, states: seq<Sys>, steps: seq<Step>) {
    Path(p, states, steps) && states[0] == Init(p)
  }

  ghost predicate Path(p: Setup, states: seq<Sys>, steps: seq<Step>) {
    && |states| == |steps| + 1
    && forall i | 0 <= i < |steps| :: Enabled(states[i], steps[i]) && states[i + 1] == Do(p, states[i], steps[i])
  }

  // ----- what every reachable state satisfies -----

  function HeldBy(producer: Producer): seq<WithProduct> {
    if producer.Sending? then [producer.Held] else []
  }

  function InFlight(s: Sys): seq<WithProduct> {
    s.Storing.Taken() + s.Buffer + HeldBy(s.Producer)
  }

  // Records stored, in the consumer's hand, buffered and held by the blocked
  // sender are, in order, the wanted records of the rows read so far.
  ghost predicate Conserves(p: Setup, s: Sys) {
    && s.Read + s.Unread == p.File
    && InFlight(s) == ReadLines(p.Cfg, s.Read).Accepted
    && |s.Buffer| <= s.Cap == p.Cap
  }

  // The producer knows what it has read, and closes for a reason.
  ghost predicate Tracks(p: Setup, s: Sys) {
    var r := ReadLines(p.Cfg, s.Read);
    && s.Header == r.Header
    && (s.Producer.Seeking? ==> r.Header.None?)
    && (!s.Producer.Seeking? && !s.Producer.Closed? ==> r.Header.Some?)
    && (!s.Producer.Closed? ==> r.Stop.None? && s.Err.None?)
    && (s.Producer.Closed? && s.Err.None? ==> s.Unread == [] && r.Stop.None? && r.Header.Some?)
    && (s.Producer.Closed? && s.Err.Some? && s.Err.value.BrokenFile? ==>
          && FileError(p.Cfg, s.Read) == Some(s.Err.value.Message)
          && (s.Unread == [] || r.Stop.Some?))
    && (s.Err == Some(Interrupted) ==> s.Cancelled)
  }

  // The consumer has stored what it received, and returns for a reason.
  ghost predicate Stores(p: Setup, s: Sys) {
    && s.Storing.Follows(p.Env, p.Start())
    && (s.Result.Some? ==> s.Result.value == ReturnOf(s) && s.Cancelled && (s.Storing.Stage.Failing? || Drained(s)))
  }

  ghost predicate Inv(p: Setup, s: Sys) {
    Conserves(p, s) && Tracks(p, s) && Stores(p, s)
  }

  lemma ReadOne(p: Setup, s: Sys)
    requires Inv(p, s) && s.Unread != []
    ensures ReadLines(p.Cfg, s.Read + [s.Unread[0]]) == ReadLine(p.Cfg, ReadLines(p.Cfg, s.Read), s.Unread[0])
    ensures (s.Read + [s.Unread[0]]) + s.Unread[1..] == p.File
  {
    ReadNext(p.Cfg, s.Read, s.Unread[0]);
  }

  lemma SeekTracks(p: Setup, s: Sys)
    requires Inv(p, s) && Enabled(s, Seek)
    ensures Tracks(p, DoSeek(s))
  {
    if s.Unread != [] {
      ReadOne(p, s);
    }
  }

  // No record comes before the header.
  lemma SeekHolds(p: Setup, s: Sys)
    requires Inv(p, s) && Enabled(s, Seek) && s.Unread != []
    ensures ReadLine(p.Cfg, ReadLines(p.Cfg, s.Read), s.Unread[0]).Accepted
            == ReadLines(p.Cfg, s.Read).Accepted + HeldBy(DoSeek(s).Producer)
  {
  }

  lemma SeekConserves(p: Setup, s: Sys)
    requires Inv(p, s) && Enabled(s, Seek)
    ensures Conserves(p, DoSeek(s))
  {
    if s.Unread != [] {
      ReadOne(p, s);
      SeekHolds(p, s);
    }
    HoldsMore(p, s, DoSeek(s));
  }

  // The producer starts to hold what the row adds to the wanted records.
  lemma ReadRowHolds(p: Setup, s: Sys)
    requires Inv(p, s) && Enabled(s, ReadRow) && s.Unread != []
    ensures ReadLine(p.Cfg, ReadLines(p.Cfg, s.Read), s.Unread[0]).Accepted
            == ReadLines(p.Cfg, s.Read).Accepted + HeldBy(DoRead(p.Cfg, s).Producer)
  {
  }

  lemma ReadRowConserves(p: Setup, s: Sys)
    requires Inv(p, s) && Enabled(s, ReadRow)
    ensures Conserves(p, DoRead(p.Cfg, s))
  {
    var next := DoRead(p.Cfg, s);
    if s.Unread != [] {
      ReadOne(p, s);
      ReadRowHolds(p, s);
    }
    HoldsMore(p, s, next);
  }

  lemma HoldsMore(p: Setup, s: Sys, next: Sys)
    requires Conserves(p, s) && !s.Producer.Sending?
    requires next == s.(Unread := next.Unread, Read := next.Read, Header := next.Header, Producer := next.Producer,
                        Err := next.Err)
    requires next.Read + next.Unread == p.File
    requires ReadLines(p.Cfg, next.Read).Accepted == ReadLines(p.Cfg, s.Read).Accepted + HeldBy(next.Producer)
    ensures Conserves(p, next)
  {
    assert s.Storing.Taken() + s.Buffer + [] == s.Storing.Taken() + s.Buffer;
  }

  lemma ReadRowTracks(p: Setup, s: Sys)
    requires Inv(p, s) && Enabled(s, ReadRow)
    ensures Tracks(p, DoRead(p.Cfg, s))
  {
    if s.Unread != [] {
      ReadOne(p, s);
    }
  }

  // Steps that move nothing but the producer.
  lemma ProducerStores(p: Setup, s: Sys, next: Sys)
    requires Stores(p, s) && !s.Producer.Closed?
    requires next.Storing == s.Storing && next.Result == s.Result && next.Cancelled == s.Cancelled
    ensures Stores(p, next)
  {
  }

  lemma FirstOut(taken: seq<WithProduct>, buffer: seq<WithProduct>, held: seq<WithProduct>)
    requires buffer != []
    ensures taken + [] + buffer + held == taken + [buffer[0]] + buffer[1..] + held
  {
  }

  lemma ReceiveKeeps(p: Setup, s: Sys)
    requires Inv(p, s) && Enabled(s, Receive)
    ensures Inv(p, Do(p, s, Receive))
  {
    FirstOut(s.Storing.Stored, s.Buffer, HeldBy(s.Producer));
  }

  lemma HandOverKeeps(p: Setup, s: Sys)
    requires Inv(p, s) && Enabled(s, HandOver)
    ensures Inv(p, Do(p, s, HandOver))
  {
    assert InFlight(Do(p, s, HandOver)) == InFlight(s);
  }

  lemma SendKeeps(p: Setup, s: Sys)
    requires Inv(p, s) && Enabled(s, Send)
    ensures Inv(p, Do(p, s, Send))
  {
    assert InFlight(Do(p, s, Send)) == InFlight(s);
  }

  lemma UpsertKeeps(p: Setup, s: Sys, step: Step)
    requires Inv(p, s) && Enabled(s, step) && step in {UpsertProduct, UpsertPrice}
    ensures Inv(p, Do(p, s, step))
  {
    if step == UpsertProduct {
      ProductFollows(p.Env, p.Start(), s.Storing);
    } else {
      PriceFollows(p.Env, p.Start(), s.Storing);
    }
  }

  // Steps that move no record.
  lemma StillKeeps(p: Setup, s: Sys, step: Step)
    requires Inv(p, s) && Enabled(s, step) && step in {Check, Return, Cancel}
    ensures Inv(p, Do(p, s, step))
  {
    assert InFlight(Do(p, s, step)) == InFlight(s);
  }

  /** Every step keeps the invariant. */
  lemma StepKeeps(p: Setup, s: Sys, step: Step)
    requires Inv(p, s) && Enabled(s, step)
    ensures Inv(p, Do(p, s, step))
  {
    match step
    case Seek =>
      SeekConserves(p, s);
      SeekTracks(p, s);
      ProducerStores(p, s, DoSeek(s));
    case ReadRow =>
      ReadRowConserves(p, s);
      ReadRowTracks(p, s);
      ProducerStores(p, s, DoRead(p.Cfg, s));
    case Send => SendKeeps(p, s);
    case HandOver => HandOverKeeps(p, s);
    case Receive => ReceiveKeeps(p, s);
    case UpsertProduct | UpsertPrice => UpsertKeeps(p, s, step);
    case Check | Return | Cancel => StillKeeps(p, s, step);
  }

  /** Under every interleaving and for every channel capacity, every reachable
      state conserves the records, in order, and has stored exactly what was received. */
  lemma {:induction false} RunKeeps(p: Setup, states: seq<Sys>, steps: seq<Step>)
    requires Run(p, states, steps)
    ensures Inv(p, states[|steps|])
  {
    if steps == [] {
      assert InFlight(Init(p)) == [];
    } else {
      var n := |steps| - 1;
      assert Run(p, states[..n + 1], steps[..n]);
      RunKeeps(p, states[..n + 1], steps[..n]);
      StepKeeps(p, states[n], steps[n]);
    }
  }

  // ----- what ingestion returns and stores -----

  // What storing the whole file one record after the other would give.
  ghost function Sequential(p: Setup): (Consumer, Option<IngestError>) {
    var (c, e) := Consume(p.Env, p.Start(), p.Wanted());
    if e.Some? then (c, Some(UpsertFailed(e.value)))
    else if FileError(p.Cfg, p.File).Some? then (c, Some(IngesterFailed(FileError(p.Cfg, p.File).value)))
    else (c, None)
  }

  // The producer saw a cancelled context, and no failed upsert is to blame.
  predicate CutShort(s: Sys) {
    s.Err == Some(Interrupted) && !s.Storing.Stage.Failing?
  }

  lemma InFlightIsPrefix(p: Setup, s: Sys)
    requires Inv(p, s)
    ensures InFlight(s) <= p.Wanted()
    ensures s.Storing.Taken() <= p.Wanted() && s.Storing.Stored <= p.Wanted()
  {
    ReadMore(p.Cfg, s.Read, s.Unread);
    assert s.Storing.Stored <= s.Storing.Taken() <= InFlight(s);
  }

  // A producer that closed by itself has handed on every wanted record.
  lemma ClosedMeansAll(p: Setup, s: Sys)
    requires Inv(p, s) && s.Producer.Closed? && s.Err != Some(Interrupted)
    ensures InFlight(s) == p.Wanted()
    ensures FileError(p.Cfg, p.File) == if s.Err.Some? then Some(s.Err.value.Message) else None
  {
    ReadMore(p.Cfg, s.Read, s.Unread);
    assert s.Unread == [] ==> s.Read == p.File;
  }

  /** However the goroutines interleave and whatever the capacity, ingestion
      returns what the sequential run returns and leaves the same store, unless a
      cancelled context cut it short: then it says so, and has stored a prefix. */
  lemma ReturnsSequential(p: Setup, states: seq<Sys>, steps: seq<Step>)
    requires Run(p, states, steps) && states[|steps|].Result.Some?
    ensures var s := states[|steps|];
            if CutShort(s) then
              && s.Result.value == Some(IngesterFailed("context canceled"))
              && s.Storing.Stored <= p.Wanted()
              && Consume(p.Env, p.Start(), s.Storing.Stored) == (s.Storing.Consumer, None)
            else (s.Storing.Consumer, s.Result.value) == Sequential(p)
  {
    var s := states[|steps|];
    RunKeeps(p, states, steps);
    InFlightIsPrefix(p, s);
    if s.Storing.Stage.Failing? {
      FailingFollows(p.Env, p.Start(), s.Storing);
      assert p.Wanted()[..|s.Storing.Taken()|] == s.Storing.Taken();
      ConsumeStuck(p.Env, p.Start(), p.Wanted(), |s.Storing.Taken()|);
    } else if !CutShort(s) {
      ClosedMeansAll(p, s);
      assert InFlight(s) == s.Storing.Stored;
    }
  }

  /** What ingestion returns: the first failed upsert, or else that the context was
      cancelled, or else the error of the file, or nil. */
  lemma ResultExactly(p: Setup, states: seq<Sys>, steps: seq<Step>)
    requires Run(p, states, steps) && states[|steps|].Result.Some?
    ensures var s := states[|steps|];
            var stored, broken := Consume(p.Env, p.Start(), p.Wanted()).1, FileError(p.Cfg, p.File);
            && (s.Result.value.None? <==> !CutShort(s) && stored.None? && broken.None?)
            && (forall e :: s.Result.value == Some(UpsertFailed(e)) <==> !CutShort(s) && stored == Some(e))
            && (forall m :: s.Result.value == Some(IngesterFailed(m)) <==>
                              if CutShort(s) then m == "context canceled" else stored.None? && broken == Some(m))
  {
    ReturnsSequential(p, states, steps);
  }

  /** At any moment, between any two statements, the tables are those of a prefix
      of the wanted records, plus at most the product of the next one. */
  lemma StoresPrefix(p: Setup, states: seq<Sys>, steps: seq<Step>)
    requires Run(p, states, steps)
    ensures var st := states[|steps|].Storing;
            var (c, e) := Consume(p.Env, p.Start(), st.Stored);
            && st.Stored <= p.Wanted() && e.None?
            && (|| st.Consumer.DB.Tables == c.DB.Tables
                || (&& |st.Stored| < |p.Wanted()|
                    && st.Consumer.DB.Tables == UpsertedProduct(p.Env, c.DB.Tables, p.Wanted()[|st.Stored|].Product)))
  {
    var s := states[|steps|];
    RunKeeps(p, states, steps);
    InFlightIsPrefix(p, s);
    TablesFollow(p.Env, p.Start(), s.Storing);
    assert !s.Storing.Stage.Idle? ==> s.Storing.Taken()[|s.Storing.Stored|] == s.Storing.Stage.Record;
  }

  // ----- progress -----

  function Weight(p: Producer): nat {
    match p
    case Closed => 0
    case Reading => 1
    case Checking => 2
    case Seeking => 2
    case Sending(_) => 6
  }

  // Every step, cancellation included, makes this smaller.
  function Measure(s: Sys): nat {
    6 * |s.Unread| + Weight(s.Producer) + 3 * |s.Buffer| + s.Storing.Weight() +
    (if s.Result.None? then 1 else 0) + (if s.Cancelled then 0 else 1)
  }

  lemma StepDecreases(p: Setup, s: Sys, step: Step)
    requires Enabled(s, step)
    ensures Measure(Do(p, s, step)) < Measure(s)
  {
  }

  /** No run is longer than its starting measure: ingestion always ends. */
  lemma {:induction false} RunsAreBounded(p: Setup, states: seq<Sys>, steps: seq<Step>)
    requires Run(p, states, steps)
    ensures |steps| + Measure(states[|steps|]) <= Measure(Init(p))
  {
    if steps != [] {
      var n := |steps| - 1;
      assert Run(p, states[..n + 1], steps[..n]);
      RunsAreBounded(p, states[..n + 1], steps[..n]);
      StepDecreases(p, states[n], steps[n]);
    }
  }

  /** There is no deadlock: until ingestion returns, the producer or the consumer can move. */
  lemma NoDeadlock(p: Setup, s: Sys) returns (step: Step)
    requires Inv(p, s) && s.Result.None?
    ensures !step.Cancel? && Enabled(s, step)
  {
    if s.Storing.Stage.Got? {
      step := UpsertProduct;
    } else if s.Storing.Stage.Known? {
      step := UpsertPrice;
    } else if s.Storing.Stage.Failing? {
      step := Return;
    } else if s.Buffer != [] {
      step := Receive;
    } else {
      match s.Producer
      case Sending(_) => step := HandOver;
      case Closed => step := Return;
      case Seeking => step := Seek;
      case Checking => step := Check;
      case Reading => step := ReadRow;
    }
  }
}
