/**
 * The `useMeasurements` hook as a state record and pure transitions: the
 * single pending reading, the ledger of recorded measurements, the
 * `currentIndex` counter that numbers placeholder electrodes, and the
 * survey configuration. Ids and timestamps come from the clock in the
 * source; here they are parameters.
 */
module Measurements {
  import opened Base
  import opened Text
  import opened Number

  /** A reading not yet recorded: four electrode positions and the apparent resistance. */
  datatype Reading = Reading(a: int, b: int, m: int, n: int, ra: Num)

  /** A recorded measurement: a reading plus its id and its timestamp in milliseconds. */
  datatype Measurement = Measurement(id: int, a: int, b: int, m: int, n: int, ra: Num, timestamp: int)

  /** A name that is none of the three geometries the hook knows. */
  type OtherName = name: string | name != "Dipole-Dipole" && name != "Wenner" && name != "Schlumberger" witness ""

  /** The array geometry; a stored configuration may hold any other name. */
  datatype ArrayType = DipoleDipole | Wenner | Schlumberger | Unrecognized(name: OtherName)

  datatype SurveyConfig = SurveyConfig(
    arrayType: ArrayType,
    electrodeSpacing: real,
    projectName: string,
    operator: string)

  const DefaultConfig: SurveyConfig := SurveyConfig(DipoleDipole, 1.0, "ERT Survey", "Tarek Attia")

  /** A `Partial<SurveyConfig>`: the fields present are the ones to overwrite. */
  datatype ConfigUpdate = ConfigUpdate(
    arrayType: Option<ArrayType>,
    electrodeSpacing: Option<real>,
    projectName: Option<string>,
    operator: Option<string>)

  /**
   * The hook's state. `pending` is the reading waiting to be recorded
   * (called `liveReading` in the hook); `currentIndex` counts recordings
   * and deletions and is not tied to the ledger's length.
   */
  datatype Store = Store(
    measurements: seq<Measurement>,
    currentIndex: nat,
    pending: Option<Reading>,
    config: SurveyConfig)

  const Initial: Store := Store([], 0, None, DefaultConfig)

  /** The reading a resistance-only message stands for: four consecutive positions after the index. */
  function Placeholder(index: nat, ra: Num): (r: Reading)
    ensures r.a == index + 1 && r.b == r.a + 1 && r.m == r.b + 1 && r.n == r.m + 1
    ensures r.ra == ra
  {
    Reading(index + 1, index + 2, index + 3, index + 4, ra)
  }

  /**
   * `handleIncomingData`: when the trimmed message starts with a number
   * the pending reading is replaced by a placeholder reading holding it,
   * whatever was pending before; otherwise nothing changes. The ledger,
   * the index and the configuration never change.
   */
  function HandleIncomingData(st: Store, data: string): (r: Store)
    ensures r.measurements == st.measurements && r.currentIndex == st.currentIndex && r.config == st.config
    ensures !StartsNumeric(Trim(data)) ==> r.pending == st.pending
    ensures StartsNumeric(Trim(data)) ==>
      && r.pending.Some?
      && r.pending.value.a == st.currentIndex + 1
      && r.pending.value == Placeholder(st.currentIndex, r.pending.value.ra)
      && r.pending.value.ra == ParseFloat(Trim(data))
      && !r.pending.value.ra.NaN?
  {
    var trimmed := Trim(data);
    var value := ParseFloat(trimmed);
    assert TrimStart(trimmed) == trimmed by {
      TrimOfTrimmed(trimmed);
    }
    ParseFloatNaNIff(trimmed);
    if !value.NaN? then st.(pending := Some(Placeholder(st.currentIndex, value))) else st
  }

  /** A trimmed message that parses to a finite value becomes a placeholder reading with it. */
  lemma HandleFinite(st: Store, data: string, v: real)
    requires IsTrimmed(data) && ParseFloat(data) == Finite(v)
    ensures HandleIncomingData(st, data).pending == Some(Placeholder(st.currentIndex, Finite(v)))
  {
    TrimOfTrimmed(data);
  }

  /** A message whose trim does not parse leaves the store as it was. */
  lemma HandleNaN(st: Store, data: string)
    ensures ParseFloat(Trim(data)).NaN? ==> HandleIncomingData(st, data) == st
  {
    TrimOfTrimmed(Trim(data));
    ParseFloatNaNIff(Trim(data));
  }

  /** A bare resistance value at index zero becomes the reading on electrodes 1, 2, 3 and 4. */
  lemma ResistanceBecomesReading(st: Store)
    requires st.currentIndex == 0
    ensures HandleIncomingData(st, "42.0").pending == Some(Reading(1, 2, 3, 4, Finite(42.0)))
  {
    var data := "42.0";
    assert IsTrimmed(data);
    ParseFloatReadsWhole();
    HandleFinite(st, data, 42.0);
  }

  /**
   * A comma-separated message is not split into fields: only its leading
   * number is read, and the electrodes are placeholders all the same.
   */
  lemma FieldsAreNotParsed(st: Store)
    ensures HandleIncomingData(st, "1,2,3,4,56.7").pending == Some(Placeholder(st.currentIndex, Finite(1.0)))
  {
    LeadingFieldTaken(st, "1,2,3,4,56.7");
  }

  /** The proof of `FieldsAreNotParsed`, over a name for the message so that it is not evaluated eagerly. */
  lemma LeadingFieldTaken(st: Store, data: string)
    requires data == "1,2,3,4,56.7"
    ensures HandleIncomingData(st, data).pending == Some(Placeholder(st.currentIndex, Finite(1.0)))
  {
    assert IsTrimmed(data);
    ParseFloatFiveFields();
    HandleFinite(st, data, 1.0);
  }

  /** A status message that does not start with a number leaves the store as it was. */
  lemma StatusMessageIgnored(st: Store)
    ensures HandleIncomingData(st, "OK") == st
  {
    var data := "OK";
    assert IsTrimmed(data);
    TrimOfTrimmed(data);
    NoNumericPrefix(data);
    HandleNaN(st, data);
  }

  /** Messages delivered in order, each handled in turn. */
  function HandleAll(st: Store, messages: seq<string>): Store
    decreases |messages|
  {
    if |messages| == 0 then st else HandleAll(HandleIncomingData(st, messages[0]), messages[1..])
  }

  /** A message `handleIncomingData` turns into a reading. */
  predicate IsNumericMessage(data: string) {
    StartsNumeric(Trim(data))
  }

  /** The last message in the batch that starts with a number, if any. */
  function LastNumeric(messages: seq<string>): (last: Option<string>)
    ensures last.Some? ==> IsNumericMessage(last.value)
    ensures last.Some? ==> IsLastNumeric(messages, last.value)
    ensures last.None? ==> forall i :: 0 <= i < |messages| ==> !IsNumericMessage(messages[i])
    decreases |messages|
  {
    if |messages| == 0 then None
    else
      var later := LastNumeric(messages[1..]);
      if later.Some? then
        LastShifts(messages, later.value);
        later
      else if IsNumericMessage(messages[0]) then
        FirstIsLast(messages);
        Some(messages[0])
      else
        NoneNumeric(messages);
        None
  }

  /** A non-numeric first message before a tail with no numeric one leaves no numeric message. */
  lemma NoneNumeric(messages: seq<string>)
    requires |messages| > 0 && !IsNumericMessage(messages[0])
    requires forall i :: 0 <= i < |messages| - 1 ==> !IsNumericMessage(messages[1..][i])
    ensures forall i :: 0 <= i < |messages| ==> !IsNumericMessage(messages[i])
  {
    forall i | 0 < i < |messages|
      ensures !IsNumericMessage(messages[i])
    {
      assert messages[i] == messages[1..][i - 1];
    }
  }

  /** `m` is the last numeric message of `messages`, found at some position. */
  predicate IsLastNumeric(messages: seq<string>, m: string) {
    exists j :: 0 <= j < |messages| && messages[j] == m &&
      forall k :: j < k < |messages| ==> !IsNumericMessage(messages[k])
  }

  /** The last numeric message of the tail is the last of the whole batch. */
  lemma LastShifts(messages: seq<string>, m: string)
    requires |messages| > 0 && IsLastNumeric(messages[1..], m)
    ensures IsLastNumeric(messages, m)
  {
    var j :| 0 <= j < |messages[1..]| && messages[1..][j] == m &&
      forall k :: j < k < |messages[1..]| ==> !IsNumericMessage(messages[1..][k]);
    forall k | j + 1 < k < |messages|
      ensures !IsNumericMessage(messages[k])
    {
      assert messages[k] == messages[1..][k - 1];
    }
    assert messages[j + 1] == m;
  }

  /** A numeric first message followed by no numeric one is the last numeric message. */
  lemma FirstIsLast(messages: seq<string>)
    requires |messages| > 0 && IsNumericMessage(messages[0])
    requires forall i :: 0 <= i < |messages| - 1 ==> !IsNumericMessage(messages[1..][i])
    ensures IsLastNumeric(messages, messages[0])
  {
    forall k | 0 < k < |messages|
      ensures !IsNumericMessage(messages[k])
    {
      assert messages[k] == messages[1..][k - 1];
    }
  }

  /** A batch of messages never touches the ledger, the index or the configuration. */
  lemma {:induction false} BatchKeepsLedger(st: Store, messages: seq<string>)
    ensures HandleAll(st, messages).measurements == st.measurements
    ensures HandleAll(st, messages).currentIndex == st.currentIndex
    ensures HandleAll(st, messages).config == st.config
    decreases |messages|
  {
    if |messages| > 0 {
      BatchKeepsLedger(HandleIncomingData(st, messages[0]), messages[1..]);
    }
  }

  /** The reading a numeric message leaves pending. */
  function ReadingOf(st: Store, data: string): Reading {
    Placeholder(st.currentIndex, ParseFloat(Trim(data)))
  }

  /** One message: a numeric one replaces the pending reading, any other leaves it; the index stays. */
  lemma HandleStep(st: Store, data: string)
    ensures HandleIncomingData(st, data).currentIndex == st.currentIndex
    ensures IsNumericMessage(data) ==> HandleIncomingData(st, data).pending == Some(ReadingOf(st, data))
    ensures !IsNumericMessage(data) ==> HandleIncomingData(st, data).pending == st.pending
  {
  }

  /**
   * Last one wins: after a batch of messages the pending reading is the
   * one of the last numeric message, or the old one when there was none;
   * readings are never queued.
   */
  lemma {:induction false} LastReadingWins(st: Store, messages: seq<string>)
    ensures HandleAll(st, messages).pending ==
      match LastNumeric(messages)
      case None => st.pending
      case Some(m) => Some(ReadingOf(st, m))
    decreases |messages|
  {
    if |messages| > 0 {
      var next := HandleIncomingData(st, messages[0]);
      var rest := messages[1..];
      var later := LastNumeric(rest);
      assert HandleAll(st, messages) == HandleAll(next, rest);
      HandleStep(st, messages[0]);
      LastReadingWins(next, rest);
      if later.Some? {
        assert ReadingOf(next, later.value) == ReadingOf(st, later.value);
      }
    }
  }

  /** The measurement a pending reading becomes when it is recorded. */
  function Commit(r: Reading, id: int, timestamp: int): (m: Measurement)
    ensures m.id == id && m.timestamp == timestamp
    ensures m.a == r.a && m.b == r.b && m.m == r.m && m.n == r.n && m.ra == r.ra
  {
    Measurement(id, r.a, r.b, r.m, r.n, r.ra, timestamp)
  }

  /** A store after `recordCurrentReading`, and what the call returned. */
  datatype Recorded = Recorded(store: Store, recorded: bool)

  /**
   * `recordCurrentReading`: without a pending reading it returns false and
   * changes nothing; otherwise the reading is appended to the ledger with
   * the given id and timestamp, the index advances by one, the pending
   * reading is cleared and it returns true.
   */
  function RecordCurrentReading(st: Store, id: int, timestamp: int): (r: Recorded)
    ensures r.recorded <==> st.pending.Some?
    ensures !r.recorded ==> r.store == st
    ensures r.recorded ==>
      && |r.store.measurements| == |st.measurements| + 1
      && r.store.measurements[..|st.measurements|] == st.measurements
      && r.store.measurements[|st.measurements|] == Commit(st.pending.value, id, timestamp)
      && r.store.currentIndex == st.currentIndex + 1
      && r.store.pending == None
    ensures r.store.config == st.config
  {
    match st.pending
    case None => Recorded(st, false)
    case Some(reading) =>
      var ledger := st.measurements + [Commit(reading, id, timestamp)];
      assert ledger[..|st.measurements|] == st.measurements;
      Recorded(Store(ledger, st.currentIndex + 1, None, st.config), true)
  }

  /** The ledger without the entries carrying `id`: `filter(m => m.id !== id)`. */
  function RemoveId(ms: seq<Measurement>, id: int): (r: seq<Measurement>)
    ensures |r| <= |ms|
    ensures forall x :: x in r <==> x in ms && x.id != id
    ensures (forall i :: 0 <= i < |ms| ==> ms[i].id != id) ==> r == ms
    decreases |ms|
  {
    if |ms| == 0 then []
    else
      var rest := RemoveId(ms[1..], id);
      assert forall x :: x in ms <==> x == ms[0] || x in ms[1..];
      if ms[0].id == id then rest else [ms[0]] + rest
  }

  /** Removing from two consecutive parts is removing from each: survivors keep their order. */
  lemma {:induction false} RemoveIdAppend(a: seq<Measurement>, b: seq<Measurement>, id: int)
    ensures RemoveId(a + b, id) == RemoveId(a, id) + RemoveId(b, id)
    decreases |a|
  {
    if |a| == 0 {
      assert a + b == b;
    } else {
      assert (a + b)[1..] == a[1..] + b;
      RemoveIdAppend(a[1..], b, id);
    }
  }

  /** How many ledger entries carry `id`. */
  function CountId(ms: seq<Measurement>, id: int): nat
    decreases |ms|
  {
    if |ms| == 0 then 0 else (if ms[0].id == id then 1 else 0) + CountId(ms[1..], id)
  }

  /** Deletion removes exactly the entries that carry the id: all of them when ids repeat. */
  lemma {:induction false} RemoveIdCount(ms: seq<Measurement>, id: int)
    ensures |RemoveId(ms, id)| == |ms| - CountId(ms, id)
    decreases |ms|
  {
    if |ms| > 0 {
      RemoveIdCount(ms[1..], id);
    }
  }

  /**
   * `deleteMeasurement`: the ledger keeps, in order, exactly the entries
   * whose id differs, and the index drops by one (not below zero) whether
   * or not anything was removed.
   */
  function DeleteMeasurement(st: Store, id: int): (r: Store)
    ensures r.measurements == RemoveId(st.measurements, id)
    ensures forall x :: x in r.measurements <==> x in st.measurements && x.id != id
    ensures r.currentIndex == if st.currentIndex == 0 then 0 else st.currentIndex - 1
    ensures r.pending == st.pending && r.config == st.config
  {
    st.(measurements := RemoveId(st.measurements, id),
        currentIndex := if st.currentIndex == 0 then 0 else st.currentIndex - 1)
  }

  /** Deleting an id no entry carries leaves the ledger as it was, yet still lowers the index. */
  lemma DeleteAbsentId(st: Store, id: int)
    requires forall i :: 0 <= i < |st.measurements| ==> st.measurements[i].id != id
    requires st.currentIndex > 0
    ensures DeleteMeasurement(st, id).measurements == st.measurements
    ensures DeleteMeasurement(st, id).currentIndex == st.currentIndex - 1
  {
  }

  /**
   * The index can fall behind the ledger: after one recording and a delete
   * of another id, the next reading is numbered as the first one was.
   */
  lemma IndexDriftsFromLedger(r: Reading, v: Num)
    ensures var one := RecordCurrentReading(Initial.(pending := Some(r)), 1, 0).store;
      var after := DeleteMeasurement(one, 2);
      && |after.measurements| == 1
      && after.currentIndex == 0
      && Placeholder(after.currentIndex, v).a == 1
  {
  }

  /** `clearAllMeasurements`: no measurements, index zero, nothing pending; the configuration stays. */
  function ClearAll(st: Store): (r: Store)
    ensures r.measurements == [] && r.currentIndex == 0 && r.pending == None
    ensures r.config == st.config
  {
    Store([], 0, None, st.config)
  }

  lemma ClearAllIdempotent(st: Store)
    ensures ClearAll(ClearAll(st)) == ClearAll(st)
  {
  }

  /** `{ ...prev, ...updates }`: each field present in the update replaces the old one. */
  function ApplyUpdate(c: SurveyConfig, u: ConfigUpdate): (r: SurveyConfig)
    ensures u.arrayType.Some? ==> r.arrayType == u.arrayType.value
    ensures u.arrayType.None? ==> r.arrayType == c.arrayType
    ensures u.electrodeSpacing.Some? ==> r.electrodeSpacing == u.electrodeSpacing.value
    ensures u.electrodeSpacing.None? ==> r.electrodeSpacing == c.electrodeSpacing
    ensures u.projectName.Some? ==> r.projectName == u.projectName.value
    ensures u.projectName.None? ==> r.projectName == c.projectName
    ensures u.operator.Some? ==> r.operator == u.operator.value
    ensures u.operator.None? ==> r.operator == c.operator
  {
    SurveyConfig(
      Spread(u.arrayType, c.arrayType),
      Spread(u.electrodeSpacing, c.electrodeSpacing),
      Spread(u.projectName, c.projectName),
      Spread(u.operator, c.operator))
  }

  /** One property of an object spread: the update's value when it has the key, else the old one. */
  function Spread<T>(update: Option<T>, current: T): T
  {
    match update
    case Some(v) => v
    case None => current
  }

  /** Two updates in a row are one update in which the later fields win. */
  function Merge(first: ConfigUpdate, second: ConfigUpdate): ConfigUpdate {
    ConfigUpdate(
      if second.arrayType.Some? then second.arrayType else first.arrayType,
      if second.electrodeSpacing.Some? then second.electrodeSpacing else first.electrodeSpacing,
      if second.projectName.Some? then second.projectName else first.projectName,
      if second.operator.Some? then second.operator else first.operator)
  }

  lemma ApplyUpdateCompose(c: SurveyConfig, first: ConfigUpdate, second: ConfigUpdate)
    ensures ApplyUpdate(ApplyUpdate(c, first), second) == ApplyUpdate(c, Merge(first, second))
  {
  }

  /** An update with no fields changes nothing. */
  lemma ApplyEmptyUpdate(c: SurveyConfig)
    ensures ApplyUpdate(c, ConfigUpdate(None, None, None, None)) == c
  {
  }

  /** `updateConfig`: only the configuration changes. */
  function UpdateConfig(st: Store, u: ConfigUpdate): (r: Store)
    ensures r.config == ApplyUpdate(st.config, u)
    ensures r.measurements == st.measurements && r.currentIndex == st.currentIndex && r.pending == st.pending
  {
    st.(config := ApplyUpdate(st.config, u))
  }
}
