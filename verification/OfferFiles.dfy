/** What is read of an offer file, row by row (aws/ingester.go). */
module OfferFiles {
  import opened Wrappers
  import opened Orders
  import opened Store
  import opened IngestedRows
  import opened Pipeline

  // The first `h` rows are metadata: readable, and of at most two cells.
  ghost predicate Metadata(file: seq<Line>, h: nat) {
    h <= |file| && forall i | 0 <= i < h :: file[i].Row? && |file[i].Cells| <= 2
  }

  // Row h is the header and the rows after it, up to row n, can be parsed.
  ghost predicate Readable(cfg: Config, file: seq<Line>, h: nat, n: nat) {
    && h < n <= |file| && file[h].Row? && |file[h].Cells| > 2
    && forall i | h < i < n :: file[i].Row? && cfg.Parse(file[h].Cells, file[i].Cells).Record?
  }

  // Row n is where the reading stops, and why.
  ghost predicate StopsAt(cfg: Config, file: seq<Line>, h: nat, n: nat, err: Option<string>)
    requires h < n <= |file| && file[h].Row?
  {
    if n == |file| then err == None
    else match file[n]
         case Unreadable(m) => err == Some(m)
         case Row(cells) =>
           var parsed := cfg.Parse(file[h].Cells, cells);
           parsed.Malformed? && err == Some(parsed.Reason)
  }

  // The records accepted are those of the wanted rows, in order; `at` are these rows.
  ghost predicate WantedRows(cfg: Config, file: seq<Line>, h: nat, n: nat, at: seq<nat>, accepted: seq<WithProduct>)
    requires Readable(cfg, file, h, n)
  {
    && Increasing(at, n) && |accepted| == |at|
    && (forall m | h < m < n :: m in at <==> cfg.Filter(cfg.Parse(file[h].Cells, file[m].Cells).Value))
    && forall i | 0 <= i < |at| :: h < at[i] && accepted[i] == cfg.Parse(file[h].Cells, file[at[i]].Cells).Value
  }

  // A file without a readable header gives nothing but an error.
  ghost predicate Headless(file: seq<Line>, h: nat, accepted: seq<WithProduct>, err: Option<string>)
    requires h <= |file|
  {
    && accepted == []
    && (if h == |file| then err == Some("EOF") else file[h].Unreadable? && err == Some(file[h].Message))
  }

  ghost predicate IsReading(cfg: Config, file: seq<Line>, h: nat, n: nat, at: seq<nat>, accepted: seq<WithProduct>,
                            err: Option<string>)
  {
    && Metadata(file, h)
    && if h < |file| && file[h].Row? then
         Readable(cfg, file, h, n) && StopsAt(cfg, file, h, n, err) && WantedRows(cfg, file, h, n, at, accepted)
       else Headless(file, h, accepted, err)
  }

  // What the fold over the lines knows.
  ghost predicate IsReader(cfg: Config, file: seq<Line>, h: nat, n: nat, at: seq<nat>, r: Reader) {
    && Metadata(file, h)
    && if h < |file| && file[h].Row? then
         && r.Header == Some(file[h].Cells)
         && Readable(cfg, file, h, n) && StopsAt(cfg, file, h, n, r.Stop) && WantedRows(cfg, file, h, n, at, r.Accepted)
       else r.Header == None && r.Accepted == [] && r.Stop == if h == |file| then None else Some(file[h].Message)
  }

  lemma OneMore(cfg: Config, front: seq<Line>, line: Line, h: nat, n: nat, at: seq<nat>, r: Reader)
    returns (h': nat, n': nat, at': seq<nat>)
    requires IsReader(cfg, front, h, n, at, r)
    ensures IsReader(cfg, front + [line], h', n', at', ReadLine(cfg, r, line))
  {
    var file := front + [line];
    assert forall i | 0 <= i < |front| :: file[i] == front[i];
    if h == |front| {
      at' := [];
      if line.Row? && |line.Cells| <= 2 {
        h', n' := h + 1, 0;
      } else {
        h', n' := h, h + 1;
      }
    } else if front[h].Unreadable? || n < |front| {
      h', n', at' := h, n, at;
    } else {
      h', n', at' := RowMore(cfg, front, line, h, n, at, r);
    }
  }

  lemma RowMore(cfg: Config, front: seq<Line>, line: Line, h: nat, n: nat, at: seq<nat>, r: Reader)
    returns (h': nat, n': nat, at': seq<nat>)
    requires IsReader(cfg, front, h, n, at, r) && h < |front| && front[h].Row? && n == |front|
    ensures IsReader(cfg, front + [line], h', n', at', ReadLine(cfg, r, line))
  {
    var file := front + [line];
    assert forall i | 0 <= i < |front| :: file[i] == front[i];
    h', n', at' := h, n, at;
    if line.Row? && cfg.Parse(front[h].Cells, line.Cells).Record? {
      IncreasingNext(at, n);
      n' := n + 1;
      if cfg.Filter(cfg.Parse(front[h].Cells, line.Cells).Value) {
        at' := at + [n];
      }
    }
  }

  lemma {:induction false} FoldReads(cfg: Config, file: seq<Line>) returns (h: nat, n: nat, at: seq<nat>)
    ensures IsReader(cfg, file, h, n, at, ReadLines(cfg, file))
  {
    if file == [] {
      h, n, at := 0, 0, [];
    } else {
      var front, line := file[..|file| - 1], file[|file| - 1];
      h, n, at := FoldReads(cfg, front);
      h, n, at := OneMore(cfg, front, line, h, n, at, ReadLines(cfg, front));
      assert front + [line] == file;
    }
  }

  /** Every file is read up to its first row that is unreadable or malformed: leading
      rows of at most two cells are skipped, the next one is the header, the records of
      the wanted rows follow in order, and the error is that of the row, or that the
      header is missing. */
  lemma ReadsExactly(cfg: Config, file: seq<Line>) returns (h: nat, n: nat, at: seq<nat>)
    ensures IsReading(cfg, file, h, n, at, ReadLines(cfg, file).Accepted, FileError(cfg, file))
  {
    h, n, at := FoldReads(cfg, file);
  }

  /** From a row of the file to the tables: when ingestion returns nil, the last record
      of a price is stored as the row it was read from says. */
  lemma NilStoresRow(p: Setup, states: seq<Sys>, steps: seq<Step>, i: nat, j: nat)
    requires Run(p, states, steps) && states[|steps|].Result == Some(None) && Valid(p.DB.Tables)
    requires FirstOfSKU(p.Wanted(), i, j) && LastOfPrice(p.Env, p.Wanted(), i)
    ensures var t, k := states[|steps|].Storing.Consumer.DB.Tables, p.Wanted()[j].Product;
            var key := ProductKey(k.Provider, k.SKU, k.Location);
            && key in t.Products && HoldsProduct(p.DB.Tables, t.Products[key], k)
            && exists row | row in t.Prices ::
                  row.ProductID == t.Products[key].ID && HoldsPrice(p.Env, t.Prices[row], p.Wanted()[i].Price)
  {
    ReturnsSequential(p, states, steps);
    StoredProduct(p.Env, p.DB, p.Wanted(), j);
    StoredPrice(p.Env, p.DB, p.Wanted(), i, j);
  }
}
