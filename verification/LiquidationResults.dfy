/** Reading liquidation results back from the attributes of a transaction (liquidationHelpers.ts). */
module LiquidationResults {
  import opened Prelude

  const COLLATERAL_DENOM := "collateral_denom"
  const DEBT_DENOM := "debt_denom"
  const COLLATERAL_AMOUNT := "collateral_amount"
  const DEBT_AMOUNT := "debt_amount"

  datatype Attribute = Attribute(key: string, value: string)

  datatype Event = Event(kind: string, attributes: seq<Attribute>)

  datatype LiquidationResult = LiquidationResult(
    collateralReceivedDenom: string, debtRepaidDenom: string,
    debtRepaidAmount: string, collateralReceivedAmount: string)

  const BLANK := LiquidationResult("", "", "", "")

  // ----- What a run of attributes says ----------------------------------------------------------

  /** Value under the last occurrence of `key`, blank if there is none. */
  function LastValue(attributes: seq<Attribute>, key: string): string {
    if attributes == [] then ""
    else
      var last := attributes[|attributes| - 1];
      if last.key == key then last.value else LastValue(attributes[..|attributes| - 1], key)
  }

  function ReadRecord(attributes: seq<Attribute>): LiquidationResult {
    LiquidationResult(
      LastValue(attributes, COLLATERAL_DENOM), LastValue(attributes, DEBT_DENOM),
      LastValue(attributes, DEBT_AMOUNT), LastValue(attributes, COLLATERAL_AMOUNT))
  }

  /** The attributes after the last debt amount. */
  function Open(attributes: seq<Attribute>): seq<Attribute> {
    if attributes == [] then []
    else
      var front, last := attributes[..|attributes| - 1], attributes[|attributes| - 1];
      if last.key == DEBT_AMOUNT then [] else Open(front) + [last]
  }

  /** The runs that end in a debt amount, in order. */
  function Closed(attributes: seq<Attribute>): seq<seq<Attribute>> {
    if attributes == [] then []
    else
      var front, last := attributes[..|attributes| - 1], attributes[|attributes| - 1];
      if last.key == DEBT_AMOUNT then Closed(front) + [Open(front) + [last]] else Closed(front)
  }

  function Records(runs: seq<seq<Attribute>>): seq<LiquidationResult> {
    seq(|runs|, i requires 0 <= i < |runs| => ReadRecord(runs[i]))
  }

  function Parsed(attributes: seq<Attribute>): seq<LiquidationResult> {
    Records(Closed(attributes))
  }

  predicate Lacks(attributes: seq<Attribute>, key: string) {
    forall i :: 0 <= i < |attributes| ==> attributes[i].key != key
  }

  /** Ends in a debt amount, and holds no other. */
  predicate IsRun(run: seq<Attribute>) {
    run != [] && run[|run| - 1].key == DEBT_AMOUNT && Lacks(run[..|run| - 1], DEBT_AMOUNT)
  }

  /** Runs and a remainder without a debt amount, end to end. */
  ghost predicate Covers(attributes: seq<Attribute>, runs: seq<seq<Attribute>>, rest: seq<Attribute>) {
    && Concat(runs) + rest == attributes && Lacks(rest, DEBT_AMOUNT)
    && forall i :: 0 <= i < |runs| ==> IsRun(runs[i])
  }

  /** The attributes fall into runs and a remainder in one way only, the way they are read. */
  lemma {:induction false} SplitIsExact(attributes: seq<Attribute>, runs: seq<seq<Attribute>>, rest: seq<Attribute>)
    ensures Closed(attributes) == runs && Open(attributes) == rest <==> Covers(attributes, runs, rest)
  {
    SplitCovers(attributes);
    if Covers(attributes, runs, rest) {
      RunsSplit(runs, rest);
    }
  }

  lemma {:induction false} CoversMore(
      attributes: seq<Attribute>, runs: seq<seq<Attribute>>, rest: seq<Attribute>, a: Attribute)
    requires Covers(attributes, runs, rest)
    ensures if a.key == DEBT_AMOUNT then Covers(attributes + [a], runs + [rest + [a]], [])
            else Covers(attributes + [a], runs, rest + [a])
  {
    ConcatSnoc(runs, rest + [a]);
    hide Concat;
    if a.key == DEBT_AMOUNT {
      assert (rest + [a])[..|rest|] == rest;
      assert IsRun(rest + [a]);
      assert Concat(runs) + (rest + [a]) + [] == attributes + [a];
    } else {
      assert Concat(runs) + (rest + [a]) == attributes + [a];
    }
  }

  lemma {:induction false} SplitCovers(attributes: seq<Attribute>)
    ensures Covers(attributes, Closed(attributes), Open(attributes))
  {
    if attributes != [] {
      var front, last := attributes[..|attributes| - 1], attributes[|attributes| - 1];
      SplitCovers(front);
      hide Covers;
      CoversMore(front, Closed(front), Open(front), last);
      assert attributes == front + [last];
    }
  }

  lemma {:induction false} OpenRest(attributes: seq<Attribute>, rest: seq<Attribute>)
    requires Lacks(rest, DEBT_AMOUNT)
    ensures Closed(attributes + rest) == Closed(attributes) && Open(attributes + rest) == Open(attributes) + rest
  {
    if rest == [] {
      assert attributes + rest == attributes;
    } else {
      var k := |rest| - 1;
      OpenRest(attributes, rest[..k]);
      assert (attributes + rest)[..|attributes + rest| - 1] == attributes + rest[..k];
    }
  }

  lemma {:induction false} OneMoreRun(attributes: seq<Attribute>, run: seq<Attribute>)
    requires IsRun(run)
    ensures Closed(attributes + run) == Closed(attributes) + [Open(attributes) + run] && Open(attributes + run) == []
  {
    hide Closed, Open;
    var front, last := run[..|run| - 1], run[|run| - 1];
    OpenRest(attributes, front);
    RunEnds(attributes + front, last);
    assert run == front + [last];
    assert attributes + run == (attributes + front) + [last];
    assert Open(attributes) + front + [last] == Open(attributes) + run;
  }

  lemma {:induction false} RunEnds(attributes: seq<Attribute>, last: Attribute)
    requires last.key == DEBT_AMOUNT
    ensures Closed(attributes + [last]) == Closed(attributes) + [Open(attributes) + [last]]
    ensures Open(attributes + [last]) == []
  {
    assert (attributes + [last])[..|attributes|] == attributes;
  }

  lemma {:induction false} RunsSplit(runs: seq<seq<Attribute>>, rest: seq<Attribute>)
    requires Lacks(rest, DEBT_AMOUNT) && forall i :: 0 <= i < |runs| ==> IsRun(runs[i])
    ensures Closed(Concat(runs) + rest) == runs && Open(Concat(runs) + rest) == rest
  {
    hide IsRun, Lacks;
    RunsClose(runs);
    OpenRest(Concat(runs), rest);
  }

  lemma {:induction false} RunsClose(runs: seq<seq<Attribute>>)
    requires forall i :: 0 <= i < |runs| ==> IsRun(runs[i])
    ensures Closed(Concat(runs)) == runs && Open(Concat(runs)) == []
  {
    if runs != [] {
      var k := |runs| - 1;
      RunsClose(runs[..k]);
      OneMoreRun(Concat(runs[..k]), runs[k]);
      assert runs == runs[..k] + [runs[k]];
      assert [] + runs[k] == runs[k];
    }
  }

  // ----- Round trip -----------------------------------------------------------------------------

  predicate SaysOnce(run: seq<Attribute>, key: string, value: string) {
    exists i :: 0 <= i < |run| && run[i] == Attribute(key, value)
                && forall j :: 0 <= j < |run| && j != i ==> run[j].key != key
  }

  /** `run` prints `r`: the debt amount last, the other three keys once each in any order, anything else between. */
  predicate Prints(run: seq<Attribute>, r: LiquidationResult) {
    && IsRun(run) && run[|run| - 1].value == r.debtRepaidAmount
    && SaysOnce(run, COLLATERAL_DENOM, r.collateralReceivedDenom)
    && SaysOnce(run, DEBT_DENOM, r.debtRepaidDenom)
    && SaysOnce(run, COLLATERAL_AMOUNT, r.collateralReceivedAmount)
  }

  /** Some attribute says `value` under `key`, and none after it says anything under `key`. */
  ghost predicate SaysLast(attributes: seq<Attribute>, key: string, value: string) {
    exists i :: 0 <= i < |attributes| && attributes[i] == Attribute(key, value)
                && forall j :: i < j < |attributes| ==> attributes[j].key != key
  }

  lemma {:induction false} SaysLastSnoc(front: seq<Attribute>, a: Attribute, key: string, value: string)
    ensures SaysLast(front + [a], key, value)
            <==> if a.key == key then a.value == value else SaysLast(front, key, value)
    ensures Lacks(front + [a], key) <==> Lacks(front, key) && a.key != key
  {
    var all := front + [a];
    assert all[|front|] == a && forall i :: 0 <= i < |front| ==> all[i] == front[i];
    if a.key == key && a.value == value {
      assert all[|front|] == Attribute(key, value);
    }
    if a.key != key && SaysLast(front, key, value) {
      var i :| 0 <= i < |front| && front[i] == Attribute(key, value)
               && forall j :: i < j < |front| ==> front[j].key != key;
      assert all[i] == Attribute(key, value);
    }
  }

  /** What LastValue means, without reading from the back. */
  lemma {:induction false} LastValueIff(attributes: seq<Attribute>, key: string, value: string)
    ensures LastValue(attributes, key) == value
            <==> (Lacks(attributes, key) && value == "") || SaysLast(attributes, key, value)
  {
    if attributes != [] {
      hide Lacks, SaysLast;
      var front, last := attributes[..|attributes| - 1], attributes[|attributes| - 1];
      LastValueIff(front, key, value);
      SaysLastSnoc(front, last, key, value);
      assert attributes == front + [last];
    }
  }

  lemma {:induction false} SaidOnceIsRead(run: seq<Attribute>, key: string, value: string)
    requires SaysOnce(run, key, value)
    ensures LastValue(run, key) == value
  {
    LastValueIff(run, key, value);
  }

  /** Parsing a printed list of results gives the list back, whatever unrelated attributes lie between or after. */
  lemma {:induction false} PrintedIsParsed(
      results: seq<LiquidationResult>, runs: seq<seq<Attribute>>, rest: seq<Attribute>)
    requires |runs| == |results| && forall i :: 0 <= i < |runs| ==> Prints(runs[i], results[i])
    requires Lacks(rest, DEBT_AMOUNT)
    ensures Parsed(Concat(runs) + rest) == results
  {
    RunsSplit(runs, rest);
    forall i | 0 <= i < |runs|
      ensures ReadRecord(runs[i]) == results[i]
    {
      PrintedIsRead(runs[i], results[i]);
    }
  }

  lemma {:induction false} PrintedIsRead(run: seq<Attribute>, r: LiquidationResult)
    requires Prints(run, r)
    ensures ReadRecord(run) == r
  {
    hide SaysOnce;
    SaidOnceIsRead(run, COLLATERAL_DENOM, r.collateralReceivedDenom);
    SaidOnceIsRead(run, DEBT_DENOM, r.debtRepaidDenom);
    SaidOnceIsRead(run, COLLATERAL_AMOUNT, r.collateralReceivedAmount);
  }

  // ----- Leaks from one record into the next ----------------------------------------------------

  lemma {:induction false} LastValueAppend(a: seq<Attribute>, b: seq<Attribute>, key: string)
    ensures LastValue(a + b, key) == if Lacks(b, key) then LastValue(a, key) else LastValue(b, key)
    ensures Lacks(b, key) ==> LastValue(b, key) == ""
  {
    if b == [] {
      assert a + b == a;
    } else {
      var k := |b| - 1;
      LastValueAppend(a, b[..k], key);
      assert (a + b)[..|a + b| - 1] == a + b[..k];
    }
  }

  lemma {:induction false} BlankAddsNothing(a: seq<Attribute>, b: seq<Attribute>)
    requires ReadRecord(a) == BLANK
    ensures ReadRecord(a + b) == ReadRecord(b)
  {
    LastValueAppend(a, b, COLLATERAL_DENOM);
    LastValueAppend(a, b, DEBT_DENOM);
    LastValueAppend(a, b, COLLATERAL_AMOUNT);
    LastValueAppend(a, b, DEBT_AMOUNT);
  }

  lemma {:induction false} RecordsSnoc(runs: seq<seq<Attribute>>, run: seq<Attribute>)
    ensures Records(runs + [run]) == Records(runs) + [ReadRecord(run)]
  {
  }

  lemma {:induction false} ParsedSnoc(attributes: seq<Attribute>, a: Attribute)
    ensures Open(attributes + [a]) == if a.key == DEBT_AMOUNT then [] else Open(attributes) + [a]
    ensures Parsed(attributes + [a])
            == if a.key == DEBT_AMOUNT then Parsed(attributes) + [ReadRecord(Open(attributes) + [a])]
               else Parsed(attributes)
  {
    assert (attributes + [a])[..|attributes|] == attributes;
    RecordsSnoc(Closed(attributes), Open(attributes) + [a]);
  }

  /** `open` is `own` behind something that reads blank. */
  ghost predicate BlankThen(open: seq<Attribute>, own: seq<Attribute>) {
    exists blank :: ReadRecord(blank) == BLANK && open == blank + own
  }

  lemma {:induction false} BlankThenNothing(blank: seq<Attribute>)
    requires ReadRecord(blank) == BLANK
    ensures BlankThen(blank, []) && BlankThen([], [])
  {
    ReadNothing();
    var none: seq<Attribute> := [];
    assert blank == blank + none && none == none + none;
  }

  lemma {:induction false} BlankThenMore(open: seq<Attribute>, own: seq<Attribute>, last: Attribute)
    requires BlankThen(open, own)
    ensures BlankThen(open + [last], own + [last]) && ReadRecord(open + [last]) == ReadRecord(own + [last])
  {
    var blank :| ReadRecord(blank) == BLANK && open == blank + own;
    hide ReadRecord;
    BlankAddsNothing(blank, own + [last]);
    assert open + [last] == blank + (own + [last]);
  }

  /** Behind a blank remainder, what follows is parsed as it would be alone. */
  lemma {:induction false} NothingLeaks(a: seq<Attribute>, b: seq<Attribute>)
    requires ReadRecord(Open(a)) == BLANK
    ensures Parsed(a + b) == Parsed(a) + Parsed(b) && BlankThen(Open(a + b), Open(b))
  {
    hide Parsed, Open, ReadRecord, BlankThen;
    ReadNothing();
    if b == [] {
      assert a + b == a;
      BlankThenNothing(Open(a));
    } else {
      var front, last := b[..|b| - 1], b[|b| - 1];
      NothingLeaks(a, front);
      assert b == front + [last];
      NoMoreLeaks(a, front, last);
    }
  }

  lemma {:induction false} NoMoreLeaks(a: seq<Attribute>, b: seq<Attribute>, last: Attribute)
    requires Parsed(a + b) == Parsed(a) + Parsed(b) && BlankThen(Open(a + b), Open(b))
    ensures Parsed(a + (b + [last])) == Parsed(a) + Parsed(b + [last])
    ensures BlankThen(Open(a + (b + [last])), Open(b + [last]))
  {
    hide Parsed, Open, ReadRecord, BlankThen;
    assert a + (b + [last]) == (a + b) + [last];
    ParsedSnoc(a + b, last);
    ParsedSnoc(b, last);
    BlankThenMore(Open(a + b), Open(b), last);
    ReadNothing();
    BlankThenNothing([]);
    var r := ReadRecord(Open(b) + [last]);
    assert (Parsed(a) + Parsed(b)) + [r] == Parsed(a) + (Parsed(b) + [r]);
  }

  /** Two runs of attributes can be parsed apart, whatever the second is, exactly when the first ends blank. */
  lemma {:induction false} ParsesApartIff(a: seq<Attribute>)
    ensures (forall b :: Parsed(a + b) == Parsed(a) + Parsed(b)) <==> ReadRecord(Open(a)) == BLANK
  {
    if ReadRecord(Open(a)) == BLANK {
      forall b
        ensures Parsed(a + b) == Parsed(a) + Parsed(b)
      {
        NothingLeaks(a, b);
      }
    } else {
      var last := Attribute(DEBT_AMOUNT, "");
      LeakShows(a, last);
      assert Parsed(a + [last]) != Parsed(a) + Parsed([last]);
    }
  }

  lemma {:induction false} LeakShows(a: seq<Attribute>, last: Attribute)
    requires last == Attribute(DEBT_AMOUNT, "") && ReadRecord(Open(a)) != BLANK
    ensures Parsed(a + [last]) != Parsed(a) + Parsed([last])
  {
    hide Parsed, Open, ReadRecord;
    ReadNothing();
    ParsedSnoc(a, last);
    ParsedSnoc([], last);
    assert [] + [last] == [last];
    ReadSnoc(Open(a), last);
    ReadSnoc([], last);
    OpenHasNoAmount(a);
    assert Parsed(a + [last])[|Parsed(a)|] != BLANK;
    assert (Parsed(a) + Parsed([last]))[|Parsed(a)|] == BLANK;
  }

  lemma {:induction false} OpenHasNoAmount(a: seq<Attribute>)
    ensures ReadRecord(Open(a)).debtRepaidAmount == ""
  {
    SplitCovers(a);
    LastValueAppend([], Open(a), DEBT_AMOUNT);
  }

  // ----- Several events -------------------------------------------------------------------------

  function EventResults(events: seq<Event>): seq<LiquidationResult> {
    if events == [] then []
    else
      var front, last := events[..|events| - 1], events[|events| - 1];
      if last.kind == "wasm" then EventResults(front) + Parsed(last.attributes) else EventResults(front)
  }

  function Wasm(events: seq<Event>): seq<Event> {
    Filter(events, (e: Event) => e.kind == "wasm")
  }

  /** The attributes print the results one after the other, with anything unrelated between or after. */
  ghost predicate PrintsAll(attributes: seq<Attribute>, results: seq<LiquidationResult>) {
    exists runs, rest :: attributes == Concat(runs) + rest && PrintsEach(runs, rest, results)
  }

  ghost predicate PrintsEach(runs: seq<seq<Attribute>>, rest: seq<Attribute>, results: seq<LiquidationResult>) {
    && |runs| == |results| && Lacks(rest, DEBT_AMOUNT)
    && forall i :: 0 <= i < |runs| ==> Prints(runs[i], results[i])
  }

  /** Each wasm event is parsed on its own: the lists that the wasm events print come back end to end. */
  lemma {:induction false} EventsParseApart(events: seq<Event>, printed: seq<seq<LiquidationResult>>)
    requires |printed| == |Wasm(events)|
    requires forall i :: 0 <= i < |printed| ==> PrintsAll(Wasm(events)[i].attributes, printed[i])
    ensures EventResults(events) == Concat(printed)
  {
    if events != [] {
      hide PrintsAll, Parsed;
      var front, last := events[..|events| - 1], events[|events| - 1];
      if last.kind == "wasm" {
        EventsParseApart(front, printed[..|printed| - 1]);
        PrintedEventIsParsed(last.attributes, printed[|printed| - 1]);
      } else {
        EventsParseApart(front, printed);
      }
    }
  }

  lemma {:induction false} PrintedEventIsParsed(attributes: seq<Attribute>, results: seq<LiquidationResult>)
    requires PrintsAll(attributes, results)
    ensures Parsed(attributes) == results
  {
    hide Parsed, Prints, Lacks;
    var runs, rest :| attributes == Concat(runs) + rest && PrintsEach(runs, rest, results);
    PrintedIsParsed(results, runs, rest);
  }

  class LiquidationHelper {
    const liquidatorAddress: string
    const liquidationFilterContract: string

    constructor (liquidatorAddress: string, liquidationFilterContract: string)
      ensures this.liquidatorAddress == liquidatorAddress && this.liquidationFilterContract == liquidationFilterContract
    {
      this.liquidatorAddress, this.liquidationFilterContract := liquidatorAddress, liquidationFilterContract;
    }

    method ParseLiquidationResult(events: seq<Event>) returns (liquidationResults: seq<LiquidationResult>)
      ensures liquidationResults == EventResults(events)
    {
      liquidationResults := [];
      for i := 0 to |events|
        invariant liquidationResults == EventResults(events[..i])
      {
        assert events[..i + 1][..i] == events[..i];
        if events[i].kind == "wasm" {
          var result := ParseLiquidationResultInner(events[i]);
          liquidationResults := liquidationResults + result;
        }
      }
      assert events[..|events|] == events;
    }

    method ParseLiquidationResultInner(wasm: Event) returns (results: seq<LiquidationResult>)
      ensures results == Parsed(wasm.attributes)
    {
      hide Open, Parsed, ReadRecord;
      var attributes := wasm.attributes;
      var result := BLANK;
      results := [];
      ReadNothing();
      for i := 0 to |attributes|
        invariant results == Parsed(attributes[..i]) && result == ReadRecord(Open(attributes[..i]))
      {
        var attribute := attributes[i];
        assert attributes[..i + 1] == attributes[..i] + [attribute];
        ParsedSnoc(attributes[..i], attribute);
        ReadSnoc(Open(attributes[..i]), attribute);
        match attribute.key
        case "collateral_denom" => result := result.(collateralReceivedDenom := attribute.value);
        case "debt_denom" => result := result.(debtRepaidDenom := attribute.value);
        case "collateral_amount" => result := result.(collateralReceivedAmount := attribute.value);
        case "debt_amount" =>
          result := result.(debtRepaidAmount := attribute.value);
          results := results + [result];
          result := BLANK;
        case _ =>
      }
      assert attributes[..|attributes|] == attributes;
    }
  }

  lemma {:induction false} ReadNothing()
    ensures Parsed([]) == [] && Open([]) == [] && ReadRecord([]) == BLANK
  {
  }

  lemma {:induction false} ReadSnoc(attributes: seq<Attribute>, a: Attribute)
    ensures var before := ReadRecord(attributes);
            ReadRecord(attributes + [a])
            == if a.key == COLLATERAL_DENOM then before.(collateralReceivedDenom := a.value)
               else if a.key == DEBT_DENOM then before.(debtRepaidDenom := a.value)
               else if a.key == COLLATERAL_AMOUNT then before.(collateralReceivedAmount := a.value)
               else if a.key == DEBT_AMOUNT then before.(debtRepaidAmount := a.value)
               else before
  {
    assert (attributes + [a])[..|attributes|] == attributes;
  }
}
