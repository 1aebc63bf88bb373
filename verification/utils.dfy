/** The enrichment pipeline: per-record normalization and tagging, the
    arrival-order scan for out-of-order records, the sorted adjacent-pair scan
    for near-duplicates, and the rows the insert step builds from an enriched
    frame (before they reach the database). */
module Enrich {
  import opened Wrappers
  import opened Text
  import opened DateUtils
  import opened Flags

  /** A CSV cell as the frame holds it: some text, or NaN for an empty cell. */
  datatype Cell = Filled(text: string) | Missing

  /** `str(value)`: NaN prints as `nan`. */
  function CellStr(c: Cell): string {
    match c
    case Filled(t) => t
    case Missing => "nan"
  }

  /** An amount cell: a number, or text (a column pandas could not read as
      numbers holds strings). */
  datatype Amount = Number(value: real) | Written(text: string)

  /** One raw transaction record, as loaded from the batch file. */
  datatype Transaction = Transaction(
    transactionId: string,
    customerId: string,
    amount: Amount,
    currency: string,
    timestamp: Cell,
    timezone: Cell,
    status: string,
    productCategory: string)

  /** The loaded batch. `CleanAndEnrich` adds the two derived columns in place. */
  class Frame {
    var rows: seq<Transaction>
    var processedTimestamp: seq<Option<Instant>>
    var dataQualityFlags: seq<FlagCell>

    constructor (rows: seq<Transaction>)
      ensures this.rows == rows && processedTimestamp == [] && dataQualityFlags == []
    {
      this.rows := rows;
      processedTimestamp := [];
      dataQualityFlags := [];
    }

    /** Both derived columns are present, one value per row. */
    predicate Enriched()
      reads this
    {
      |processedTimestamp| == |rows| && |dataQualityFlags| == |rows|
    }
  }

  /** A value of the flags column: stage 1 stores JSON text; the insert step
      also accepts a dict, a list, or anything else (read as no tags). */
  datatype FlagCell = JsonText(text: string) | DictDoc(doc: FlagDoc) | TagList(tags: seq<string>) | OtherValue

  // ---------------------------------------------------------------------------
  // Stage 1: per-record normalization and tags

  /** `str(value).strip()` of a cell; the text `nan` has nothing to strip. */
  function StrippedText(c: Cell): (t: string)
    ensures t == Strip(CellStr(c))
  {
    match c
    case Filled(text) => Strip(text)
    case Missing => assert Strip("nan") == "nan"; "nan"
  }

  function TimestampText(r: Transaction): string {
    StrippedText(r.timestamp)
  }

  function TimezoneText(r: Transaction): string {
    StrippedText(r.timezone)
  }

  /** The record's normalized instant; the stripped timezone text is always
      handed over as a label, never as "no label". */
  function Normalize(lib: TzLibrary, r: Transaction): Option<Instant> {
    ParseTimestamp(lib, TimestampText(r), Some(TimezoneText(r)))
  }

  predicate TimezoneMissing(r: Transaction) {
    TimezoneText(r) == "" || TimezoneText(r) == "nan" || TimezoneText(r) == "NaN"
  }

  /** The tags stage 1 gives a record on its own, given its instant. */
  function RecordTags(parsed: Option<Instant>, r: Transaction): seq<string> {
    (if parsed.None? then [InvalidDateFormat] else []) +
    (if TimezoneMissing(r) then [MissingTimezone] else [])
  }

  /** The processed-timestamp column of a batch. */
  function ProcessedColumn(lib: TzLibrary, rows: seq<Transaction>): (ts: seq<Option<Instant>>)
    ensures |ts| == |rows|
  {
    if rows == [] then [] else ProcessedColumn(lib, rows[..|rows| - 1]) + [Normalize(lib, rows[|rows| - 1])]
  }

  /** Each cell of the processed column is its record's normalized instant. */
  lemma {:induction false} ProcessedAt(lib: TzLibrary, rows: seq<Transaction>, i: nat)
    requires i < |rows|
    ensures ProcessedColumn(lib, rows)[i] == Normalize(lib, rows[i])
  {
    if i < |rows| - 1 {
      var front := rows[..|rows| - 1];
      ProcessedAt(lib, front, i);
      assert front[i] == rows[i];
    }
  }

  /** The tags of record `i` once the instants `ts` of the batch are known. */
  function TagsAt(ts: seq<Option<Instant>>, rows: seq<Transaction>, i: nat): seq<string>
    requires |ts| == |rows| && i < |rows|
  {
    RecordTags(ts[i], rows[i]) + (if IsOutOfOrder(ts, i) then [OutOfOrder] else [])
  }

  lemma TagsAtChecks(ts: seq<Option<Instant>>, rows: seq<Transaction>, i: nat)
    requires |ts| == |rows| && i < |rows|
    ensures TagsAt(ts, rows, i) == CheckTags(ts[i].None?, TimezoneMissing(rows[i]), IsOutOfOrder(ts, i))
  {
  }

  /** The tags of record `i` after the out-of-order scan. */
  function BatchTags(lib: TzLibrary, rows: seq<Transaction>, i: nat): seq<string>
    requires i < |rows|
  {
    TagsAt(ProcessedColumn(lib, rows), rows, i)
  }

  // ---------------------------------------------------------------------------
  // Stage 2: out-of-order scan

  /** The last non-null instant among the first `i` records. */
  function LastValid(ts: seq<Option<Instant>>, i: nat): Option<Instant>
    requires i <= |ts|
  {
    if i == 0 then None else if ts[i - 1].Some? then ts[i - 1] else LastValid(ts, i - 1)
  }

  /** Record `i` happened strictly before the last earlier-arriving record
      that has an instant. */
  predicate IsOutOfOrder(ts: seq<Option<Instant>>, i: nat)
    requires i < |ts|
  {
    ts[i].Some? && LastValid(ts, i).Some? && ts[i].value < LastValid(ts, i).value
  }

  /** `detect_out_of_order`: the positions of the out-of-order records, in
      arrival order. */
  method DetectOutOfOrder(ts: seq<Option<Instant>>) returns (idxs: seq<nat>)
    ensures forall k :: k in idxs <==> 0 <= k < |ts| && IsOutOfOrder(ts, k)
    ensures forall a, b :: 0 <= a < b < |idxs| ==> idxs[a] < idxs[b]
  {
    idxs := [];
    var prev: Option<Instant> := None;
    var i := 0;
    while i < |ts|
      invariant 0 <= i <= |ts|
      invariant prev == LastValid(ts, i)
      invariant forall k :: k in idxs <==> 0 <= k < i && IsOutOfOrder(ts, k)
      invariant forall a, b :: 0 <= a < b < |idxs| ==> idxs[a] < idxs[b]
      invariant forall a :: 0 <= a < |idxs| ==> idxs[a] < i
    {
      var curr := ts[i];
      if curr.Some? {
        if prev.Some? && curr.value < prev.value {
          idxs := idxs + [i];
        }
        prev := curr;
      }
      i := i + 1;
    }
  }

  /** Every non-null instant is at least every earlier non-null instant. */
  predicate InArrivalOrder(ts: seq<Option<Instant>>) {
    forall j, k :: 0 <= j < k < |ts| && ts[j].Some? && ts[k].Some? ==> ts[j].value <= ts[k].value
  }

  /** There is no last valid instant exactly when every earlier record is null. */
  lemma {:induction false} LastValidNone(ts: seq<Option<Instant>>, i: nat)
    requires i <= |ts|
    ensures LastValid(ts, i).None? <==> forall j :: 0 <= j < i ==> ts[j].None?
  {
    if i > 0 {
      LastValidNone(ts, i - 1);
    }
  }

  /** The last valid instant is that of the latest earlier non-null record. */
  lemma {:induction false} LastValidAt(ts: seq<Option<Instant>>, i: nat) returns (j: nat)
    requires i <= |ts| && LastValid(ts, i).Some?
    ensures j < i && ts[j] == LastValid(ts, i)
    ensures forall m :: j < m < i ==> ts[m].None?
  {
    if ts[i - 1].Some? {
      j := i - 1;
    } else {
      j := LastValidAt(ts, i - 1);
    }
  }

  lemma {:induction false} UnflaggedOrdered(ts: seq<Option<Instant>>, j: nat, k: nat)
    requires forall i :: 0 <= i < |ts| ==> !IsOutOfOrder(ts, i)
    requires j < k < |ts| && ts[j].Some? && ts[k].Some?
    ensures ts[j].value <= ts[k].value
    decreases k
  {
    LastValidNone(ts, k);
    var m := LastValidAt(ts, k);
    assert j <= m;
    assert !IsOutOfOrder(ts, k);
    if j < m {
      UnflaggedOrdered(ts, j, m);
    }
  }

  /** No record is flagged exactly when the non-null instants never go back
      in time in arrival order. */
  lemma NoneFlaggedIffInOrder(ts: seq<Option<Instant>>)
    ensures (forall i :: 0 <= i < |ts| ==> !IsOutOfOrder(ts, i)) <==> InArrivalOrder(ts)
  {
    if forall i :: 0 <= i < |ts| ==> !IsOutOfOrder(ts, i) {
      forall j, k | 0 <= j < k < |ts| && ts[j].Some? && ts[k].Some?
        ensures ts[j].value <= ts[k].value
      {
        UnflaggedOrdered(ts, j, k);
      }
    }
    if InArrivalOrder(ts) {
      forall i | 0 <= i < |ts|
        ensures !IsOutOfOrder(ts, i)
      {
        if LastValid(ts, i).Some? {
          var j := LastValidAt(ts, i);
        }
      }
    }
  }

  /** A flagged record is earlier than some record that arrived before it. */
  lemma FlaggedHasEarlierArrival(ts: seq<Option<Instant>>, i: nat)
    requires i < |ts| && IsOutOfOrder(ts, i)
    ensures exists j :: 0 <= j < i && ts[j].Some? && ts[i].value < ts[j].value
  {
    var j := LastValidAt(ts, i);
  }

  /** 10:00, a record that failed to parse, 09:00, 09:30: only the 09:00
      record is flagged. 09:30 is compared with 09:00, the last valid
      instant, not with the 10:00 maximum; the null record is skipped. */
  lemma ArrivalOrderExample()
    ensures var ts := [Some(10 * MicrosPerHour), None, Some(9 * MicrosPerHour), Some(9 * MicrosPerHour + MicrosPerHour / 2)];
            !IsOutOfOrder(ts, 0) && !IsOutOfOrder(ts, 1) && IsOutOfOrder(ts, 2) && !IsOutOfOrder(ts, 3)
  {
  }

  // ---------------------------------------------------------------------------
  // Tags of a record

  /** Record `i`'s tags say exactly what went wrong with it, each at most
      once, in the order the checks run; stage 1 and 2 never add
      `duplicate_candidate`, and a record that failed to parse is never out
      of order. */
  lemma BatchTagsMeaning(lib: TzLibrary, rows: seq<Transaction>, i: nat)
    requires i < |rows|
    ensures var t := BatchTags(lib, rows, i);
            && (InvalidDateFormat in t <==> Normalize(lib, rows[i]).None?)
            && (MissingTimezone in t <==> TimezoneMissing(rows[i]))
            && (OutOfOrder in t <==> IsOutOfOrder(ProcessedColumn(lib, rows), i))
            && DuplicateCandidate !in t
            && (OutOfOrder in t ==> InvalidDateFormat !in t)
            && (forall j :: 0 <= j < |t| ==> KnownTag(t[j]))
            && NoRepeats(t)
  {
    var ts := ProcessedColumn(lib, rows);
    ProcessedAt(lib, rows, i);
    TagsAtChecks(ts, rows, i);
    CheckTagsMeaning(ts[i].None?, TimezoneMissing(rows[i]), IsOutOfOrder(ts, i));
  }

  /** The tags for the three checks, in the order they run: `TagsAt` as a
      function of the three check outcomes alone, so that facts about the
      tag list are proved once without unfolding the records. */
  function CheckTags(invalid: bool, missing: bool, outOfOrder: bool): seq<string> {
    (if invalid then [InvalidDateFormat] else []) + (if missing then [MissingTimezone] else []) +
    (if outOfOrder then [OutOfOrder] else [])
  }

  lemma CheckTagsMeaning(invalid: bool, missing: bool, outOfOrder: bool)
    ensures var t := CheckTags(invalid, missing, outOfOrder);
            && (InvalidDateFormat in t <==> invalid)
            && (MissingTimezone in t <==> missing)
            && (OutOfOrder in t <==> outOfOrder)
            && DuplicateCandidate !in t
            && (forall j :: 0 <= j < |t| ==> KnownTag(t[j]))
            && NoRepeats(t)
  {
    var t := CheckTags(invalid, missing, outOfOrder);
    assert forall j :: 0 <= j < |t| ==> t[j] in [InvalidDateFormat, MissingTimezone, OutOfOrder];
  }

  /** Two ways a timezone is missing. A whitespace-only cell is tagged and
      localized in UTC. An empty (NaN) cell is tagged too, but its text
      `nan` is not blank, so it is looked up like any other label and never
      falls back to UTC. */
  lemma MissingTimezoneCells(lib: TzLibrary, r: Transaction)
    ensures r.timezone.Filled? && Strip(r.timezone.text) == "" ==>
              TimezoneMissing(r) && ResolveZone(lib, Some(TimezoneText(r))) == Some(UTC)
    ensures r.timezone.Missing? ==>
              TimezoneMissing(r) && !IsBlankTimezone(Some(TimezoneText(r))) &&
              Normalize(lib, r) == ParseTimestamp(lib, TimestampText(r), Some("nan"))
  {
    if r.timezone.Missing? {
      assert Strip("nan") == "nan" by {
        assert TrimLeft("nan") == "nan";
        assert TrimRight("nan") == "nan";
      }
    }
  }

  /** A batch of three: `a` parses under an empty timezone cell, `b` does
      not parse, `c` parses to an instant before `a`'s. Each gets exactly
      one tag: `missing_timezone`, `invalid_date_format`, `out_of_order`. */
  lemma ThreeRecordBatch(lib: TzLibrary, a: Transaction, b: Transaction, c: Transaction)
    requires a.timezone == Filled("") && Normalize(lib, a).Some?
    requires Normalize(lib, b).None? && !TimezoneMissing(b)
    requires Normalize(lib, c).Some? && !TimezoneMissing(c)
    requires Normalize(lib, c).value < Normalize(lib, a).value
    ensures BatchTags(lib, [a, b, c], 0) == [MissingTimezone]
    ensures BatchTags(lib, [a, b, c], 1) == [InvalidDateFormat]
    ensures BatchTags(lib, [a, b, c], 2) == [OutOfOrder]
  {
    var rows := [a, b, c];
    ProcessedAt(lib, rows, 0);
    ProcessedAt(lib, rows, 1);
    ProcessedAt(lib, rows, 2);
    assert TimezoneMissing(a) by {
      assert TrimLeft("") == "";
    }
    ThreeTags(ProcessedColumn(lib, rows), rows);
  }

  /** The three tags of the example batch, given its instants. */
  lemma ThreeTags(ts: seq<Option<Instant>>, rows: seq<Transaction>)
    requires |ts| == |rows| == 3
    requires ts[0].Some? && TimezoneMissing(rows[0])
    requires ts[1].None? && !TimezoneMissing(rows[1])
    requires ts[2].Some? && !TimezoneMissing(rows[2]) && ts[2].value < ts[0].value
    ensures TagsAt(ts, rows, 0) == [MissingTimezone]
    ensures TagsAt(ts, rows, 1) == [InvalidDateFormat]
    ensures TagsAt(ts, rows, 2) == [OutOfOrder]
  {
    assert LastValid(ts, 2) == ts[0];
  }

  // ---------------------------------------------------------------------------
  // Stage 3: near-duplicate scan

  function AbsReal(x: real): real {
    if x < 0.0 then -x else x
  }

  function AbsInt(x: int): int {
    if x < 0 then -x else x
  }

  const AmountTolerance: real := 0.01
  const DefaultThresholdSeconds: int := 10

  /** `same_fields`, evaluated left to right with short-circuiting; `None` is
      the TypeError the amount subtraction raises on a text amount. */
  function SameFields(prev: Transaction, curr: Transaction): (r: Option<bool>)
    ensures r.None? <==> prev.customerId == curr.customerId && (prev.amount.Written? || curr.amount.Written?)
    ensures r == Some(true) <==>
              prev.customerId == curr.customerId && prev.amount.Number? && curr.amount.Number? &&
              AbsReal(prev.amount.value - curr.amount.value) < AmountTolerance &&
              prev.status == curr.status && prev.productCategory == curr.productCategory
  {
    if prev.customerId != curr.customerId then Some(false)
    else
      match (prev.amount, curr.amount)
      case (Number(a), Number(b)) =>
        Some(AbsReal(a - b) < AmountTolerance && prev.status == curr.status &&
             prev.productCategory == curr.productCategory)
      case _ => None
  }

  /** Sort key order of `sort_values`: ascending instants, nulls last. */
  predicate SortKeyLe(a: Option<Instant>, b: Option<Instant>) {
    b.None? || (a.Some? && a.value <= b.value)
  }

  /** `order` lists every position of the batch once, in some order sorted by
      instant with nulls last; which of two equal instants comes first is left
      open. */
  predicate IsSortedOrder(ts: seq<Option<Instant>>, order: seq<nat>) {
    && |order| == |ts|
    && (forall i :: 0 <= i < |order| ==> order[i] < |ts|)
    && (forall i, j :: 0 <= i < j < |order| ==> order[i] != order[j])
    && (forall i, j :: 0 <= i < j < |order| ==> SortKeyLe(ts[order[i]], ts[order[j]]))
  }

  predicate ScanInput(rows: seq<Transaction>, ts: seq<Option<Instant>>, order: seq<nat>) {
    |rows| == |ts| && IsSortedOrder(ts, order)
  }

  datatype Verdict = NotDuplicate | Duplicate | Raises

  /** What the scan concludes about the adjacent pair at sorted positions
      `i - 1` and `i`. */
  function PairVerdict(rows: seq<Transaction>, ts: seq<Option<Instant>>, order: seq<nat>, i: nat,
                       thresholdSeconds: int): Verdict
    requires ScanInput(rows, ts, order) && 1 <= i < |order|
  {
    var p := order[i - 1];
    var c := order[i];
    if ts[p].None? || ts[c].None? then NotDuplicate
    else
      match SameFields(rows[p], rows[c])
      case None => Raises
      case Some(same) =>
        if same && AbsInt(ts[c].value - ts[p].value) <= thresholdSeconds * MicrosPerSecond
        then Duplicate else NotDuplicate
  }

  /** Some adjacent pair makes the scan raise. */
  predicate ScanRaises(rows: seq<Transaction>, ts: seq<Option<Instant>>, order: seq<nat>, thresholdSeconds: int)
    requires ScanInput(rows, ts, order)
  {
    exists i :: 1 <= i < |order| && PairVerdict(rows, ts, order, i, thresholdSeconds) == Raises
  }

  /** The earlier member of every qualifying adjacent pair among the first
      `n` sorted positions. */
  function DuplicatesBefore(rows: seq<Transaction>, ts: seq<Option<Instant>>, order: seq<nat>,
                            thresholdSeconds: int, n: nat): set<nat>
    requires ScanInput(rows, ts, order) && n <= |order|
  {
    set i | 1 <= i < n && PairVerdict(rows, ts, order, i, thresholdSeconds) == Duplicate :: order[i - 1]
  }

  /** The earlier member of every qualifying adjacent pair. */
  function NearDuplicates(rows: seq<Transaction>, ts: seq<Option<Instant>>, order: seq<nat>,
                          thresholdSeconds: int): set<nat>
    requires ScanInput(rows, ts, order)
  {
    DuplicatesBefore(rows, ts, order, thresholdSeconds, |order|)
  }

  lemma DuplicatesBeforeStep(rows: seq<Transaction>, ts: seq<Option<Instant>>, order: seq<nat>,
                             thresholdSeconds: int, n: nat)
    requires ScanInput(rows, ts, order) && 1 <= n < |order|
    ensures DuplicatesBefore(rows, ts, order, thresholdSeconds, n + 1) ==
              DuplicatesBefore(rows, ts, order, thresholdSeconds, n) +
              (if PairVerdict(rows, ts, order, n, thresholdSeconds) == Duplicate then {order[n - 1]} else {})
  {
  }

  /** `detect_near_duplicates` over the frame's rows scanned in `order`;
      `None` when the scan raises. */
  method DetectNearDuplicates(rows: seq<Transaction>, ts: seq<Option<Instant>>, order: seq<nat>,
                              thresholdSeconds: int) returns (r: Option<set<nat>>)
    requires ScanInput(rows, ts, order)
    ensures r.None? <==> ScanRaises(rows, ts, order, thresholdSeconds)
    ensures r.Some? ==> r.value == NearDuplicates(rows, ts, order, thresholdSeconds)
  {
    var duplicates: set<nat> := {};
    var i := 1;
    while i < |order|
      invariant 1 <= i && (i <= |order| || i == 1)
      invariant forall j :: 1 <= j < i ==> PairVerdict(rows, ts, order, j, thresholdSeconds) != Raises
      invariant duplicates == DuplicatesBefore(rows, ts, order, thresholdSeconds, if |order| == 0 then 0 else i)
    {
      DuplicatesBeforeStep(rows, ts, order, thresholdSeconds, i);
      var prev := order[i - 1];
      var curr := order[i];
      if ts[prev].None? || ts[curr].None? {
        i := i + 1;
        continue;
      }
      var same := SameFields(rows[prev], rows[curr]);
      if same.None? {
        assert PairVerdict(rows, ts, order, i, thresholdSeconds) == Raises;
        return None;
      }
      var timeDiff := AbsInt(ts[curr].value - ts[prev].value);
      if same.value && timeDiff <= thresholdSeconds * MicrosPerSecond {
        duplicates := duplicates + {prev};
      }
      i := i + 1;
    }
    r := Some(duplicates);
  }

  /** The adjacent pair at sorted positions `i - 1`, `i` has both instants,
      equal customer ids and a text amount. */
  predicate RaisingPair(rows: seq<Transaction>, ts: seq<Option<Instant>>, order: seq<nat>, i: nat)
    requires ScanInput(rows, ts, order) && 1 <= i < |order|
  {
    var p, c := order[i - 1], order[i];
    ts[p].Some? && ts[c].Some? && rows[p].customerId == rows[c].customerId &&
    (rows[p].amount.Written? || rows[c].amount.Written?)
  }

  lemma PairRaises(rows: seq<Transaction>, ts: seq<Option<Instant>>, order: seq<nat>, i: nat, thresholdSeconds: int)
    requires ScanInput(rows, ts, order) && 1 <= i < |order|
    ensures PairVerdict(rows, ts, order, i, thresholdSeconds) == Raises <==> RaisingPair(rows, ts, order, i)
  {
  }

  /** The scan raises exactly when some adjacent pair with both instants
      present has equal customer ids and a text amount. */
  lemma ScanRaisesMeaning(rows: seq<Transaction>, ts: seq<Option<Instant>>, order: seq<nat>, thresholdSeconds: int)
    requires ScanInput(rows, ts, order)
    ensures ScanRaises(rows, ts, order, thresholdSeconds) <==>
              exists i :: 1 <= i < |order| && RaisingPair(rows, ts, order, i)
  {
    if ScanRaises(rows, ts, order, thresholdSeconds) {
      var i :| 1 <= i < |order| && PairVerdict(rows, ts, order, i, thresholdSeconds) == Raises;
      PairRaises(rows, ts, order, i, thresholdSeconds);
    }
    if exists i :: 1 <= i < |order| && RaisingPair(rows, ts, order, i) {
      var i :| 1 <= i < |order| && RaisingPair(rows, ts, order, i);
      PairRaises(rows, ts, order, i, thresholdSeconds);
    }
  }

  /** Marked records are batch positions with an instant, and the last
      record in sorted order is never marked. */
  lemma MarkedRecords(rows: seq<Transaction>, ts: seq<Option<Instant>>, order: seq<nat>, thresholdSeconds: int)
    requires ScanInput(rows, ts, order)
    ensures forall x :: x in NearDuplicates(rows, ts, order, thresholdSeconds) ==> x < |rows| && ts[x].Some?
    ensures |order| > 0 ==> order[|order| - 1] !in NearDuplicates(rows, ts, order, thresholdSeconds)
  {
    var dups := NearDuplicates(rows, ts, order, thresholdSeconds);
    forall x | x in dups
      ensures x < |rows| && ts[x].Some?
    {
      var i :| 1 <= i < |order| && PairVerdict(rows, ts, order, i, thresholdSeconds) == Duplicate && order[i - 1] == x;
    }
    if |order| > 0 {
      var last := order[|order| - 1];
      forall j | 0 <= j < |order| - 1
        ensures order[j] != last
      {
      }
    }
  }

  /** Record `x` comes right before record `y` in sorted order and matches
      it: same customer, status and category, numeric amounts less than a
      cent apart, and `y` no earlier than `x` and at most the threshold later. */
  predicate MatchesNext(rows: seq<Transaction>, ts: seq<Option<Instant>>, x: nat, y: nat, thresholdSeconds: int)
    requires x < |rows| && y < |rows| && |ts| == |rows|
  {
    && ts[x].Some? && ts[y].Some?
    && ts[x].value <= ts[y].value <= ts[x].value + thresholdSeconds * MicrosPerSecond
    && rows[x].customerId == rows[y].customerId
    && rows[x].amount.Number? && rows[y].amount.Number?
    && AbsReal(rows[x].amount.value - rows[y].amount.value) < AmountTolerance
    && rows[x].status == rows[y].status
    && rows[x].productCategory == rows[y].productCategory
  }

  /** Record `x` is marked exactly when it matches the record right after it
      in sorted order. */
  lemma NearDuplicateMeaning(rows: seq<Transaction>, ts: seq<Option<Instant>>, order: seq<nat>,
                             thresholdSeconds: int, x: nat)
    requires ScanInput(rows, ts, order)
    ensures x in NearDuplicates(rows, ts, order, thresholdSeconds) <==>
              exists i :: 1 <= i < |order| && order[i - 1] == x && MatchesNext(rows, ts, x, order[i], thresholdSeconds)
  {
    forall i | 1 <= i < |order|
      ensures PairVerdict(rows, ts, order, i, thresholdSeconds) == Duplicate <==>
                MatchesNext(rows, ts, order[i - 1], order[i], thresholdSeconds)
    {
      var p, c := order[i - 1], order[i];
      if ts[p].Some? && ts[c].Some? {
        assert SortKeyLe(ts[p], ts[c]);
        assert AbsInt(ts[c].value - ts[p].value) == ts[c].value - ts[p].value;
      }
    }
  }

  /** Two otherwise identical purchases five seconds apart: the earlier one
      is marked; fifteen seconds apart: neither is. */
  lemma NearDuplicateExample(a: Transaction, b: Transaction)
    requires a.customerId == b.customerId && a.status == b.status && a.productCategory == b.productCategory
    requires a.amount == Number(25.0) && b.amount == Number(25.0)
    ensures NearDuplicates([a, b], [Some(5 * MicrosPerSecond), Some(0)], [1, 0], DefaultThresholdSeconds) == {1}
    ensures NearDuplicates([a, b], [Some(15 * MicrosPerSecond), Some(0)], [1, 0], DefaultThresholdSeconds) == {}
  {
    var rows := [a, b];
    var near, far := [Some(5 * MicrosPerSecond), Some(0)], [Some(15 * MicrosPerSecond), Some(0)];
    assert PairVerdict(rows, near, [1, 0], 1, DefaultThresholdSeconds) == Duplicate;
    assert PairVerdict(rows, far, [1, 0], 1, DefaultThresholdSeconds) == NotDuplicate;
  }

  // ---------------------------------------------------------------------------
  // Stages 1 and 2 together, in place on the frame

  /** The flags cells of a batch: each record's tags as JSON text. */
  function FlagCells(ts: seq<Option<Instant>>, rows: seq<Transaction>): (cells: seq<FlagCell>)
    requires |ts| == |rows|
    ensures |cells| == |rows|
  {
    seq(|rows|, i requires 0 <= i < |rows| => JsonText(Render(Dumps(TagsAt(ts, rows, i)))))
  }

  /** The flags column of a batch. */
  function FlagColumn(lib: TzLibrary, rows: seq<Transaction>): (col: seq<FlagCell>)
    ensures |col| == |rows|
  {
    FlagCells(ProcessedColumn(lib, rows), rows)
  }

  lemma FlagCellsPrefix(ts: seq<Option<Instant>>, rows: seq<Transaction>, idx: nat, flags: seq<string>)
    requires |ts| == |rows| && idx < |rows| && flags == TagsAt(ts, rows, idx)
    ensures FlagCells(ts, rows)[..idx + 1] == FlagCells(ts, rows)[..idx] + [JsonText(Render(Dumps(flags)))]
  {
    var all := FlagCells(ts, rows);
    assert all[idx] == JsonText(Render(Dumps(flags)));
    assert all[..idx + 1] == all[..idx] + [all[idx]];
  }

  /** Each record's cell in the flags column holds its tags. */
  lemma FlagColumnAt(lib: TzLibrary, rows: seq<Transaction>, i: nat)
    requires i < |rows|
    ensures FlagColumn(lib, rows)[i] == JsonText(Render(Dumps(BatchTags(lib, rows, i))))
  {
  }

  /** The tags stage 1 gives each record on its own, given the instants. */
  function OwnTags(ts: seq<Option<Instant>>, rows: seq<Transaction>): (tags: seq<seq<string>>)
    requires |ts| == |rows|
    ensures |tags| == |rows|
  {
    if rows == [] then []
    else OwnTags(ts[..|ts| - 1], rows[..|rows| - 1]) + [RecordTags(ts[|ts| - 1], rows[|rows| - 1])]
  }

  lemma {:induction false} OwnTagsAt(ts: seq<Option<Instant>>, rows: seq<Transaction>, i: nat)
    requires |ts| == |rows| && i < |rows|
    ensures OwnTags(ts, rows)[i] == RecordTags(ts[i], rows[i])
  {
    if i < |rows| - 1 {
      OwnTagsAt(ts[..|ts| - 1], rows[..|rows| - 1], i);
    }
  }

  /** Stage 1 for one record: its instant, and its own tags in the order the
      checks run. */
  method TagRecord(lib: TzLibrary, row: Transaction) returns (parsed: Option<Instant>, flags: seq<string>)
    ensures parsed == Normalize(lib, row) && flags == RecordTags(parsed, row)
  {
    flags := [];
    var timestamp := TimestampText(row);
    var timezone := TimezoneText(row);
    parsed := ParseTimestamp(lib, timestamp, Some(timezone));
    if parsed.None? {
      flags := flags + [InvalidDateFormat];
    }
    if timezone == "" || timezone == "nan" || timezone == "NaN" {
      flags := flags + [MissingTimezone];
    }
  }

  /** Stage 1 on one more record extends both columns by that record's cells. */
  lemma TagAllStep(lib: TzLibrary, rows: seq<Transaction>, i: nat)
    requires i < |rows|
    ensures ProcessedColumn(lib, rows[..i + 1]) == ProcessedColumn(lib, rows[..i]) + [Normalize(lib, rows[i])]
    ensures OwnTags(ProcessedColumn(lib, rows[..i + 1]), rows[..i + 1]) ==
            OwnTags(ProcessedColumn(lib, rows[..i]), rows[..i]) + [RecordTags(Normalize(lib, rows[i]), rows[i])]
  {
    assert rows[..i + 1][..i] == rows[..i] && rows[..i + 1][i] == rows[i];
    var processed := ProcessedColumn(lib, rows[..i]);
    assert (processed + [Normalize(lib, rows[i])])[..i] == processed;
  }



  /** Stage 1 over the whole batch: each record's instant and own tags. */
  method TagAll(lib: TzLibrary, rows: seq<Transaction>) returns (processed: seq<Option<Instant>>, tags: seq<seq<string>>)
    ensures processed == ProcessedColumn(lib, rows)
    ensures tags == OwnTags(processed, rows)
  {
    processed, tags := [], [];
    for i := 0 to |rows|
      invariant processed == ProcessedColumn(lib, rows[..i])
      invariant tags == OwnTags(processed, rows[..i])
    {
      var parsed, flags := TagRecord(lib, rows[i]);
      TagAllStep(lib, rows, i);
      processed := processed + [parsed];
      tags := tags + [flags];
    }
    assert rows[..|rows|] == rows;
  }

  /** Stage 2's second half: adds `out_of_order` to the records the scan
      returned and writes every record's tags as JSON text. */
  method WriteFlags(ts: seq<Option<Instant>>, rows: seq<Transaction>, tags: seq<seq<string>>, outOfOrder: seq<nat>)
    returns (cells: seq<FlagCell>)
    requires |ts| == |rows| && tags == OwnTags(ts, rows)
    requires forall k :: k in outOfOrder <==> 0 <= k < |ts| && IsOutOfOrder(ts, k)
    ensures cells == FlagCells(ts, rows)
  {
    cells := [];
    ghost var all := FlagCells(ts, rows);
    for idx := 0 to |rows|
      invariant cells == all[..idx]
    {
      OwnTagsAt(ts, rows, idx);
      var flags := tags[idx];
      if idx in outOfOrder {
        flags := flags + [OutOfOrder];
      }
      assert flags == TagsAt(ts, rows, idx);
      FlagCellsPrefix(ts, rows, idx, flags);
      cells := cells + [JsonText(Render(Dumps(flags)))];
    }
    assert all[..|rows|] == all;
  }

  /** `clean_and_enrich_transactions`: adds the processed-timestamp and flags
      columns to the frame, leaving its rows as they were. */
  method CleanAndEnrich(lib: TzLibrary, df: Frame)
    modifies df
    ensures df.rows == old(df.rows) && df.Enriched()
    ensures df.processedTimestamp == ProcessedColumn(lib, df.rows)
    ensures df.dataQualityFlags == FlagColumn(lib, df.rows)
  {
    var processed, tags := TagAll(lib, df.rows);
    df.processedTimestamp := processed;
    var outOfOrder := DetectOutOfOrder(df.processedTimestamp);
    df.dataQualityFlags := WriteFlags(df.processedTimestamp, df.rows, tags, outOfOrder);
  }

  // ---------------------------------------------------------------------------
  // Rows built by the insert step

  /** The tags a flags cell holds, read as the insert step reads them; `None`
      is `json.loads` raising on text that is not a flag document. */
  function StoredIssues(cell: FlagCell): (r: Option<seq<string>>)
    ensures r.None? <==> cell.JsonText? && Loads(cell.text).None?
    ensures cell.OtherValue? ==> r == Some([])
  {
    match cell
    case JsonText(text) =>
      (match Loads(text)
       case Some(d) => Some(GetIssues(d))
       case None => None)
    case DictDoc(d) => Some(GetIssues(d))
    case TagList(tags) => Some(tags)
    case OtherValue => Some([])
  }

  /** One row of the transactions table, before it is written. */
  datatype DbRow = DbRow(
    transactionId: string,
    customerId: string,
    amount: real,
    currency: string,
    originalTimestamp: Cell,
    originalTimezone: Cell,
    processedTimestamp: Option<string>,
    processedTimezone: string,
    status: string,
    productCategory: string,
    dataQualityFlags: string,
    createdAt: string)

  /** `float(amount)`; text goes through the (library) float parser. */
  function FloatOf(a: Amount, parseFloat: string -> Option<real>): Option<real> {
    match a
    case Number(v) => Some(v)
    case Written(t) => parseFloat(t)
  }

  /** `row['timezone'] if row['timezone'] else None`: only the empty string is
      falsy (NaN is truthy); both are stored as NULL, shown here as `Missing`. */
  function StoredTimezone(c: Cell): (r: Cell)
    ensures r.Missing? <==> c.Missing? || c == Filled("")
    ensures r.Filled? ==> r == c
  {
    if c == Filled("") then Missing else c
  }

  /** The UTC wall-clock text of a processed instant, or `None` for a null. */
  function FormatUtc(lib: TzLibrary, ts: Option<Instant>): Option<string> {
    match ts
    case Some(u) => Some(lib.format(lib.toWall(UTC, u)))
    case None => None
  }

  /** The row built for one record, or `None` when building it raises (the
      record is then skipped). */
  function BuildRow(lib: TzLibrary, r: Transaction, processed: Option<Instant>, cell: FlagCell,
                    isDuplicate: bool, parseFloat: string -> Option<real>, now: string): (row: Option<DbRow>)
    ensures row.Some? <==> StoredIssues(cell).Some? && FloatOf(r.amount, parseFloat).Some?
    ensures row.Some? ==> row.value.processedTimezone == "UTC"
    ensures row.Some? ==> (row.value.processedTimestamp.None? <==> processed.None?)
    ensures row.Some? ==> row.value.transactionId == r.transactionId && row.value.originalTimestamp == r.timestamp
  {
    match StoredIssues(cell)
    case None => None
    case Some(flags) =>
      var flagsJsonFinal := Render(Dumps(MergeDuplicate(flags, isDuplicate)));
      match FloatOf(r.amount, parseFloat)
      case None => None
      case Some(amount) =>
        Some(DbRow(r.transactionId, r.customerId, amount, r.currency, r.timestamp, StoredTimezone(r.timezone),
                   FormatUtc(lib, processed), "UTC", r.status, r.productCategory, flagsJsonFinal, now))
  }

  predicate Columns(rows: seq<Transaction>, ts: seq<Option<Instant>>, cells: seq<FlagCell>) {
    |ts| == |rows| && |cells| == |rows|
  }

  function RowAt(lib: TzLibrary, rows: seq<Transaction>, ts: seq<Option<Instant>>, cells: seq<FlagCell>,
                 dups: set<nat>, parseFloat: string -> Option<real>, now: string, i: nat): Option<DbRow>
    requires Columns(rows, ts, cells) && i < |rows|
  {
    BuildRow(lib, rows[i], ts[i], cells[i], i in dups, parseFloat, now)
  }

  /** The outcome of building each record's row. */
  function Attempts(lib: TzLibrary, rows: seq<Transaction>, ts: seq<Option<Instant>>, cells: seq<FlagCell>,
                    dups: set<nat>, parseFloat: string -> Option<real>, now: string): (a: seq<Option<DbRow>>)
    requires Columns(rows, ts, cells)
    ensures |a| == |rows|
  {
    seq(|rows|, i requires 0 <= i < |rows| => RowAt(lib, rows, ts, cells, dups, parseFloat, now, i))
  }

  /** The rows that were built, in order; failed attempts leave no row. */
  function Successes(built: seq<Option<DbRow>>): seq<DbRow> {
    if built == [] then []
    else
      var last := built[|built| - 1];
      Successes(built[..|built| - 1]) + (if last.Some? then [last.value] else [])
  }

  lemma SuccessesStep(built: seq<Option<DbRow>>, next: Option<DbRow>)
    ensures Successes(built + [next]) == Successes(built) + (if next.Some? then [next.value] else [])
  {
    assert (built + [next])[..|built|] == built;
  }

  /** Extending a prefix of the attempts by the next one. */
  lemma SuccessesPrefix(all: seq<Option<DbRow>>, idx: nat)
    requires idx < |all|
    ensures all[..idx + 1] == all[..idx] + [all[idx]]
    ensures Successes(all[..idx + 1]) == Successes(all[..idx]) + (if all[idx].Some? then [all[idx].value] else [])
  {
    assert all[..idx + 1] == all[..idx] + [all[idx]];
    SuccessesStep(all[..idx], all[idx]);
  }

  /** Each kept row comes from some attempt, and every successful attempt's
      row is kept. */
  lemma {:induction false} SuccessesMeaning(built: seq<Option<DbRow>>)
    ensures |Successes(built)| <= |built|
    ensures forall k :: 0 <= k < |Successes(built)| ==> exists i :: 0 <= i < |built| && built[i] == Some(Successes(built)[k])
    ensures forall i :: 0 <= i < |built| && built[i].Some? ==> built[i].value in Successes(built)
  {
    if built != [] {
      var front := built[..|built| - 1];
      SuccessesMeaning(front);
      var out := Successes(built);
      var frontOut := Successes(front);
      assert out[..|frontOut|] == frontOut;
      forall k | 0 <= k < |out|
        ensures exists i :: 0 <= i < |built| && built[i] == Some(out[k])
      {
        if k < |frontOut| {
          var i :| 0 <= i < |front| && front[i] == Some(frontOut[k]);
          assert built[i] == front[i];
        } else {
          assert built[|built| - 1] == Some(out[k]);
        }
      }
      forall i | 0 <= i < |built| && built[i].Some?
        ensures built[i].value in out
      {
        if i < |front| {
          assert built[i] == front[i];
        }
      }
    }
  }

  /** The rows built for the whole batch, skipping those that raise. */
  function RowsBuilt(lib: TzLibrary, rows: seq<Transaction>, ts: seq<Option<Instant>>, cells: seq<FlagCell>,
                     dups: set<nat>, parseFloat: string -> Option<real>, now: string): seq<DbRow>
    requires Columns(rows, ts, cells)
  {
    Successes(Attempts(lib, rows, ts, cells, dups, parseFloat, now))
  }

  /** The body of the insert loop for one record; `None` when a step raises. */
  method BuildOne(lib: TzLibrary, row: Transaction, processed: Option<Instant>, cell: FlagCell,
                  isDuplicate: bool, parseFloat: string -> Option<real>, now: string) returns (built: Option<DbRow>)
    ensures built == BuildRow(lib, row, processed, cell, isDuplicate, parseFloat, now)
  {
    var processedTs := FormatUtc(lib, processed);
    var stored := StoredIssues(cell);
    if stored.None? {
      return None;
    }
    var flags := stored.value;
    if isDuplicate && DuplicateCandidate !in flags {
      flags := flags + [DuplicateCandidate];
    }
    var flagsJsonFinal := Render(Dumps(flags));
    var amount := FloatOf(row.amount, parseFloat);
    if amount.None? {
      return None;
    }
    built := Some(DbRow(row.transactionId, row.customerId, amount.value, row.currency, row.timestamp,
                        StoredTimezone(row.timezone), processedTs, "UTC", row.status, row.productCategory,
                        flagsJsonFinal, now));
  }

  /** The rows `insert_clean_data_into_db` would hand to the database: `None`
      when the near-duplicate scan raises (nothing is inserted). */
  method InsertCleanData(lib: TzLibrary, df: Frame, order: seq<nat>, parseFloat: string -> Option<real>,
                         now: string) returns (inserted: Option<seq<DbRow>>)
    requires df.Enriched() && IsSortedOrder(df.processedTimestamp, order)
    ensures inserted.None? <==> ScanRaises(df.rows, df.processedTimestamp, order, DefaultThresholdSeconds)
    ensures inserted.Some? ==>
              inserted.value == RowsBuilt(lib, df.rows, df.processedTimestamp, df.dataQualityFlags,
                                          NearDuplicates(df.rows, df.processedTimestamp, order, DefaultThresholdSeconds),
                                          parseFloat, now)
  {
    var rows, ts, cells := df.rows, df.processedTimestamp, df.dataQualityFlags;
    var found := DetectNearDuplicates(rows, ts, order, DefaultThresholdSeconds);
    if found.None? {
      return None;
    }
    var rowsToInsert := BuildRows(lib, rows, ts, cells, found.value, parseFloat, now);
    inserted := Some(rowsToInsert);
  }

  /** The insert loop: builds each record's row, skipping those that raise. */
  method BuildRows(lib: TzLibrary, rows: seq<Transaction>, ts: seq<Option<Instant>>, cells: seq<FlagCell>,
                   duplicates: set<nat>, parseFloat: string -> Option<real>, now: string)
    returns (rowsToInsert: seq<DbRow>)
    requires Columns(rows, ts, cells)
    ensures rowsToInsert == RowsBuilt(lib, rows, ts, cells, duplicates, parseFloat, now)
  {
    rowsToInsert := [];
    ghost var all := Attempts(lib, rows, ts, cells, duplicates, parseFloat, now);
    ghost var attempts: seq<Option<DbRow>> := [];
    for idx := 0 to |rows|
      invariant attempts == all[..idx]
      invariant rowsToInsert == Successes(attempts)
    {
      var built := BuildOne(lib, rows[idx], ts[idx], cells[idx], idx in duplicates, parseFloat, now);
      assert built == all[idx];
      SuccessesPrefix(all, idx);
      attempts := attempts + [built];
      if built.Some? {
        rowsToInsert := rowsToInsert + [built.value];
      }
    }
    assert all[..|rows|] == all;
  }

  /** What the insert step hands over is exactly the rows built without an
      error: each comes from a record, each record whose row builds
      contributes it, and every one is labelled UTC. */
  lemma RowsBuiltMeaning(lib: TzLibrary, rows: seq<Transaction>, ts: seq<Option<Instant>>, cells: seq<FlagCell>,
                         dups: set<nat>, parseFloat: string -> Option<real>, now: string)
    requires Columns(rows, ts, cells)
    ensures var out := RowsBuilt(lib, rows, ts, cells, dups, parseFloat, now);
            && |out| <= |rows|
            && (forall k :: 0 <= k < |out| ==> out[k].processedTimezone == "UTC")
            && (forall k :: 0 <= k < |out| ==>
                  exists i :: 0 <= i < |rows| && RowAt(lib, rows, ts, cells, dups, parseFloat, now, i) == Some(out[k]))
            && (forall i :: 0 <= i < |rows| && RowAt(lib, rows, ts, cells, dups, parseFloat, now, i).Some? ==>
                  RowAt(lib, rows, ts, cells, dups, parseFloat, now, i).value in out)
  {
    var attempts := Attempts(lib, rows, ts, cells, dups, parseFloat, now);
    var out := Successes(attempts);
    SuccessesMeaning(attempts);
    forall i | 0 <= i < |attempts| && attempts[i].Some?
      ensures attempts[i].value.processedTimezone == "UTC"
    {
      assert attempts[i] == BuildRow(lib, rows[i], ts[i], cells[i], i in dups, parseFloat, now);
    }
    forall k | 0 <= k < |out|
      ensures out[k].processedTimezone == "UTC"
      ensures exists i :: 0 <= i < |rows| && RowAt(lib, rows, ts, cells, dups, parseFloat, now, i) == Some(out[k])
    {
      var i :| 0 <= i < |attempts| && attempts[i] == Some(out[k]);
      assert attempts[i] == RowAt(lib, rows, ts, cells, dups, parseFloat, now, i);
    }
    forall i | 0 <= i < |rows| && RowAt(lib, rows, ts, cells, dups, parseFloat, now, i).Some?
      ensures RowAt(lib, rows, ts, cells, dups, parseFloat, now, i).value in out
    {
      assert attempts[i] == RowAt(lib, rows, ts, cells, dups, parseFloat, now, i);
    }
  }

  /** A flags cell written by stage 1 reads back as the record's tags. */
  lemma StoredFlagsReadBack(lib: TzLibrary, rows: seq<Transaction>, i: nat)
    requires i < |rows|
    ensures StoredIssues(FlagColumn(lib, rows)[i]) == Some(BatchTags(lib, rows, i))
  {
    FlagColumnAt(lib, rows, i);
    BatchTagsMeaning(lib, rows, i);
    KnownTagsPlain(BatchTags(lib, rows, i));
    LoadsRender(BatchTags(lib, rows, i));
    GetIssuesDumps(BatchTags(lib, rows, i));
  }

  /** Running the insert step's flag update on text it wrote itself changes
      nothing: the tags read back are the ones written, and merging the
      duplicate mark again gives the same text. */
  lemma ReinsertFlagsStable(flags: seq<string>, isDuplicate: bool)
    requires forall i :: 0 <= i < |flags| ==> KnownTag(flags[i])
    ensures var text := Render(Dumps(MergeDuplicate(flags, isDuplicate)));
            && StoredIssues(JsonText(text)) == Some(MergeDuplicate(flags, isDuplicate))
            && Render(Dumps(MergeDuplicate(StoredIssues(JsonText(text)).value, isDuplicate))) == text
  {
    var merged := MergeDuplicate(flags, isDuplicate);
    assert forall i :: 0 <= i < |merged| ==> KnownTag(merged[i]) by {
      forall i | 0 <= i < |merged|
        ensures KnownTag(merged[i])
      {
        if i >= |flags| {
          assert merged[i] == DuplicateCandidate;
        } else {
          assert merged[i] == flags[i];
        }
      }
    }
    KnownTagsPlain(merged);
    LoadsRender(merged);
    GetIssuesDumps(merged);
  }

  /** The flags text of a built row names a tag exactly when the cell held
      it, or the tag is `duplicate_candidate` and the record was marked. */
  lemma BuiltRowFlags(lib: TzLibrary, r: Transaction, processed: Option<Instant>, cell: FlagCell, isDuplicate: bool,
                      parseFloat: string -> Option<real>, now: string, k: string)
    requires StoredIssues(cell).Some? && forall j :: 0 <= j < |StoredIssues(cell).value| ==> KnownTag(StoredIssues(cell).value[j])
    requires KnownTag(k) && FloatOf(r.amount, parseFloat).Some?
    ensures var row := BuildRow(lib, r, processed, cell, isDuplicate, parseFloat, now).value;
            Contains(row.dataQualityFlags, k) <==> k in StoredIssues(cell).value || (k == DuplicateCandidate && isDuplicate)
  {
    MergedFlagsText(StoredIssues(cell).value, isDuplicate, k);
  }


  /** For an enriched batch, the flags text stored for record `i` names a tag
      exactly when stages 1 and 2 gave the record that tag, or the tag is
      `duplicate_candidate` and the record was marked. */
  lemma StoredRowFlags(lib: TzLibrary, rows: seq<Transaction>, i: nat, isDuplicate: bool,
                       parseFloat: string -> Option<real>, now: string, k: string)
    requires i < |rows| && KnownTag(k) && FloatOf(rows[i].amount, parseFloat).Some?
    ensures var cell := FlagColumn(lib, rows)[i];
            var row := BuildRow(lib, rows[i], ProcessedColumn(lib, rows)[i], cell, isDuplicate, parseFloat, now);
            row.Some? &&
            (Contains(row.value.dataQualityFlags, k) <==> k in BatchTags(lib, rows, i) || (k == DuplicateCandidate && isDuplicate))
  {
    StoredFlagsReadBack(lib, rows, i);
    BatchTagsMeaning(lib, rows, i);
    BuiltRowFlags(lib, rows[i], ProcessedColumn(lib, rows)[i], FlagColumn(lib, rows)[i], isDuplicate, parseFloat, now, k);
  }

  /** An enriched record's row is built exactly when its amount converts to
      a float. */
  lemma EnrichedRowBuilds(lib: TzLibrary, rows: seq<Transaction>, i: nat, isDuplicate: bool,
                          parseFloat: string -> Option<real>, now: string)
    requires i < |rows|
    ensures (BuildRow(lib, rows[i], ProcessedColumn(lib, rows)[i], FlagColumn(lib, rows)[i], isDuplicate, parseFloat, now).Some?
             <==> FloatOf(rows[i].amount, parseFloat).Some?)
  {
    StoredFlagsReadBack(lib, rows, i);
  }
}
