/** Turning one station record into a host delta message: the field
    `mappings` table, `addValue`, and `getVesselDelta` in index.js. */
module Deltas {
  import opened Json
  import opened Timestamps

  /** One entry of the fixed table: read `key` from the record and publish it
      at `path`; a `root` entry publishes `{path: value}` at the root path "". */
  datatype Mapping = Mapping(path: string, key: string, root: bool)

  /** The shipped table, in order. */
  const MAPPINGS: seq<Mapping> := [
    Mapping("sensors.ais.shipCount", "SHIPS", true),
    Mapping("sensors.ais.shipCount.distinct", "DISTINCT", true)
  ]

  /** The record field holding the "date time" stamp. */
  const LAST_UPDATE := "LASTUPDATE"

  /** The source label every delta carries. */
  const SOURCE_LABEL := "aishub"

  datatype PathValue = PathValue(path: string, value: Value)
  /** The `source` object of an update; its one field is `label` in the message. */
  datatype Source = Source(name: string)
  datatype Update = Update(timestamp: string, source: Source, values: seq<PathValue>)
  datatype Delta = Delta(updates: seq<Update>)

  /** Whether `getVesselDelta` skips a looked-up value: undefined, or a string
      of length zero. Every other value, 0 and false included, is kept. */
  predicate Skipped(val: Option<Value>)
  {
    val.None? || (val.value.Str? && |val.value.s| == 0)
  }

  /** What one mapping contributes to the delta's values, if anything. */
  function MappedEntry(m: Mapping, rec: Record): (r: Option<PathValue>)
    ensures r.None? <==> m.key !in rec || rec[m.key] == Str("")
    ensures r.Some? ==> Recover(m, r.value) == Some(rec[m.key])
    ensures r.Some? && m.root ==> r.value.path == "" && r.value.value.Obj? && r.value.value.fields.Keys == {m.path}
    ensures r.Some? && !m.root ==> r.value.path == m.path
  {
    var val := Get(rec, m.key);
    if Skipped(val) then None
    else if m.root then Some(PathValue("", Obj(map[m.path := val.value])))
    else Some(PathValue(m.path, val.value))
  }

  /** The inverse of MappedEntry: the record value an emitted entry carries
      for mapping `m`, unwrapping the one-key object of a root mapping. */
  function Recover(m: Mapping, pv: PathValue): Option<Value>
  {
    if m.root then
      if pv.path == "" && pv.value.Obj? && m.path in pv.value.fields then Some(pv.value.fields[m.path]) else None
    else if pv.path == m.path then Some(pv.value) else None
  }

  function Contribution(m: Mapping, rec: Record): seq<PathValue>
  {
    match MappedEntry(m, rec)
    case None => []
    case Some(pv) => [pv]
  }

  /** The `values` list that running the mappings `ms` over `rec` produces. */
  function MappedValues(rec: Record, ms: seq<Mapping>): (vs: seq<PathValue>)
    ensures |vs| <= |ms|
  {
    if ms == [] then [] else Contribution(ms[0], rec) + MappedValues(rec, ms[1..])
  }

  /** Mappings are processed independently: the values of a concatenated
      table are the values of each part, in order. */
  lemma {:induction false} MappedValuesAppend(rec: Record, ms1: seq<Mapping>, ms2: seq<Mapping>)
    ensures MappedValues(rec, ms1 + ms2) == MappedValues(rec, ms1) + MappedValues(rec, ms2)
    decreases |ms1|
  {
    if ms1 != [] {
      var c := Contribution(ms1[0], rec);
      assert (ms1 + ms2)[0] == ms1[0];
      assert (ms1 + ms2)[1..] == ms1[1..] + ms2;
      MappedValuesAppend(rec, ms1[1..], ms2);
      calc {
        MappedValues(rec, ms1 + ms2);
        c + MappedValues(rec, ms1[1..] + ms2);
        c + (MappedValues(rec, ms1[1..]) + MappedValues(rec, ms2));
        (c + MappedValues(rec, ms1[1..])) + MappedValues(rec, ms2);
      }
    } else {
      assert ms1 + ms2 == ms2;
    }
  }

  /** Each mapping is handled on its own, at its place in the table: the
      values are those of the mappings before it, then its own entry if any,
      then those of the mappings after it. */
  lemma MappedValuesAt(rec: Record, ms: seq<Mapping>, k: nat)
    requires k < |ms|
    ensures MappedValues(rec, ms) == MappedValues(rec, ms[..k]) + Contribution(ms[k], rec) + MappedValues(rec, ms[k + 1..])
  {
    assert ms == ms[..k] + ([ms[k]] + ms[k + 1..]);
    MappedValuesAppend(rec, ms[..k], [ms[k]] + ms[k + 1..]);
    assert ([ms[k]] + ms[k + 1..])[1..] == ms[k + 1..];
  }

  /** An entry is among the values exactly when some mapping yields it. */
  lemma {:induction false} MappedValuesMembers(rec: Record, ms: seq<Mapping>, pv: PathValue)
    ensures pv in MappedValues(rec, ms) <==> exists i :: 0 <= i < |ms| && MappedEntry(ms[i], rec) == Some(pv)
    decreases |ms|
  {
    if ms != [] {
      MappedValuesMembers(rec, ms[1..], pv);
      if exists i :: 0 <= i < |ms| && MappedEntry(ms[i], rec) == Some(pv) {
        var i :| 0 <= i < |ms| && MappedEntry(ms[i], rec) == Some(pv);
        if i > 0 {
          assert ms[1..][i - 1] == ms[i];
        }
      }
      if exists i :: 0 <= i < |ms[1..]| && MappedEntry(ms[1..][i], rec) == Some(pv) {
        var i :| 0 <= i < |ms[1..]| && MappedEntry(ms[1..][i], rec) == Some(pv);
        assert ms[i + 1] == ms[1..][i];
      }
    }
  }

  /** No values at all exactly when no mapping finds a usable value. */
  lemma {:induction false} MappedValuesEmpty(rec: Record, ms: seq<Mapping>)
    ensures MappedValues(rec, ms) == [] <==> forall i :: 0 <= i < |ms| ==> MappedEntry(ms[i], rec).None?
    decreases |ms|
  {
    if ms != [] {
      MappedValuesEmpty(rec, ms[1..]);
      forall i | 1 <= i < |ms| ensures ms[i] == ms[1..][i - 1] { }
    }
  }

  /** One value per mapping exactly when every mapping finds a usable value;
      the values are then the mappings' entries position by position. */
  lemma {:induction false} MappedValuesFull(rec: Record, ms: seq<Mapping>)
    ensures |MappedValues(rec, ms)| == |ms| <==> forall i :: 0 <= i < |ms| ==> MappedEntry(ms[i], rec).Some?
    ensures |MappedValues(rec, ms)| == |ms| ==>
      forall i :: 0 <= i < |ms| ==> Some(MappedValues(rec, ms)[i]) == MappedEntry(ms[i], rec)
    decreases |ms|
  {
    if ms != [] {
      MappedValuesFull(rec, ms[1..]);
      forall i | 1 <= i < |ms| ensures ms[i] == ms[1..][i - 1] { }
    }
  }

  /** With the shipped table: at most two values, SHIPS before DISTINCT, each
      one wrapped as a one-key object at the root path. */
  lemma ShippedValues(rec: Record)
    ensures var vs := MappedValues(rec, MAPPINGS);
      && vs == Contribution(MAPPINGS[0], rec) + Contribution(MAPPINGS[1], rec)
      && |vs| <= 2
      && (forall k :: 0 <= k < |vs| ==> vs[k].path == "" && vs[k].value.Obj? && |vs[k].value.fields| == 1)
      && ("SHIPS" in rec && rec["SHIPS"] != Str("") ==>
            vs[0] == PathValue("", Obj(map["sensors.ais.shipCount" := rec["SHIPS"]])))
      && ("DISTINCT" in rec && rec["DISTINCT"] != Str("") ==>
            vs[|vs| - 1] == PathValue("", Obj(map["sensors.ais.shipCount.distinct" := rec["DISTINCT"]])))
  {
  }

  /** `addValue(delta, path, value)`: push `{path, value}` onto the first
      update's values unless the value is undefined. */
  function AddValue(d: Delta, path: string, value: Option<Value>): (r: Delta)
    requires |d.updates| > 0
    ensures |r.updates| == |d.updates| && r.updates[1..] == d.updates[1..]
    ensures r.updates[0].timestamp == d.updates[0].timestamp && r.updates[0].source == d.updates[0].source
    ensures value.None? ==> r == d
    ensures value.Some? ==> r.updates[0].values == d.updates[0].values + [PathValue(path, value.value)]
  {
    if value.None? then d
    else
      var u := d.updates[0];
      d.(updates := d.updates[0 := u.(values := u.values + [PathValue(path, value.value)])])
  }

  /** The delta `getVesselDelta` builds for a record, or the TypeError it
      throws when the timestamp cannot be converted. Never null. */
  function VesselDelta(rec: Record): (r: Result<Delta, TypeError>)
    ensures r.Success? <==> LAST_UPDATE in rec && rec[LAST_UPDATE].Str?
    ensures r.Failure? ==> ConvertTime(Get(rec, LAST_UPDATE)) == Failure(r.error)
    ensures r.Success? ==>
      && |r.value.updates| == 1
      && r.value.updates[0].source == Source(SOURCE_LABEL)
      && ConvertTime(Get(rec, LAST_UPDATE)) == Success(r.value.updates[0].timestamp)
      && r.value.updates[0].values == MappedValues(rec, MAPPINGS)
  {
    match ConvertTime(Get(rec, LAST_UPDATE))
    case Failure(e) => Failure(e)
    case Success(ts) => Success(Delta([Update(ts, Source(SOURCE_LABEL), MappedValues(rec, MAPPINGS))]))
  }

  /** `getVesselDelta(vessel)`: the timestamp first, then the mappings one
      at a time in table order, each pushed through `addValue`. */
  method GetVesselDelta(vessel: Record) returns (r: Result<Delta, TypeError>)
    ensures r == VesselDelta(vessel)
  {
    var timestamp := ConvertTime(Get(vessel, LAST_UPDATE));
    if timestamp.Failure? {
      return Failure(timestamp.error);
    }
    var delta := Delta([Update(timestamp.value, Source(SOURCE_LABEL), [])]);
    var i := 0;
    while i < |MAPPINGS|
      invariant 0 <= i <= |MAPPINGS|
      invariant delta == Delta([Update(timestamp.value, Source(SOURCE_LABEL), MappedValues(vessel, MAPPINGS[..i]))])
    {
      var mapping := MAPPINGS[i];
      var val := Get(vessel, mapping.key);
      if val.Some? && !(val.value.Str? && |val.value.s| == 0) {
        var path := mapping.path;
        var v := val.value;
        if mapping.root {
          v := Obj(map[path := v]);
          path := "";
        }
        delta := AddValue(delta, path, Some(v));
      }
      MappedValuesAppend(vessel, MAPPINGS[..i], [mapping]);
      assert MappedValues(vessel, [mapping]) == Contribution(mapping, vessel);
      assert MAPPINGS[..i + 1] == MAPPINGS[..i] + [mapping];
      i := i + 1;
    }
    assert MAPPINGS[..i] == MAPPINGS;
    r := Success(delta);
  }

  /** A record with a stamp but no usable count still yields a delta, with
      an empty values list. */
  lemma NoCountsStillDelta(rec: Record)
    requires LAST_UPDATE in rec && rec[LAST_UPDATE].Str?
    requires "SHIPS" !in rec || rec["SHIPS"] == Str("")
    requires "DISTINCT" !in rec || rec["DISTINCT"] == Str("")
    ensures VesselDelta(rec).Success?
    ensures |VesselDelta(rec).value.updates| == 1 && VesselDelta(rec).value.updates[0].values == []
  {
    MappedValuesEmpty(rec, MAPPINGS);
  }

  /** A station record carrying both counts: both are published, SHIPS first. */
  lemma BothCounts(rec: Record)
    requires "SHIPS" in rec && rec["SHIPS"] != Str("")
    requires "DISTINCT" in rec && rec["DISTINCT"] != Str("")
    ensures MappedValues(rec, MAPPINGS) == [
      PathValue("", Obj(map["sensors.ais.shipCount" := rec["SHIPS"]])),
      PathValue("", Obj(map["sensors.ais.shipCount.distinct" := rec["DISTINCT"]]))]
  {
  }

  /** A station record with a stamp "D T" and both counts yields one update
      stamped "DTTZ" carrying both counts, each root-wrapped, SHIPS first. */
  lemma FullStationRecord(rec: Record, date: string, time: string)
    requires ' ' !in date && ' ' !in time
    requires "SHIPS" in rec && rec["SHIPS"] != Str("")
    requires "DISTINCT" in rec && rec["DISTINCT"] != Str("")
    requires LAST_UPDATE in rec && rec[LAST_UPDATE] == Str(date + " " + time)
    ensures VesselDelta(rec) == Success(Delta([Update(date + "T" + time + "Z", Source(SOURCE_LABEL), [
      PathValue("", Obj(map["sensors.ais.shipCount" := rec["SHIPS"]])),
      PathValue("", Obj(map["sensors.ais.shipCount.distinct" := rec["DISTINCT"]]))])]))
  {
    ConvertDateTime(date, time);
    BothCounts(rec);
  }
}
