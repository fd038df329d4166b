/** `_sensors_to_fields` (bin/user/wmr89.py:263-275): a decoded record keyed
    by observation names becomes one keyed by the host's field names. The
    sensor map sends each field name to the observation it is read from. */
module Remap {
  import opened Values

  type SensorMap = map<string, string>

  /** Python truth of the record: present and not empty. */
  predicate Truthy(oldrec: Option<Record>)
  {
    oldrec.Some? && oldrec.value != map[]
  }

  /** Some field of the sensor map reads an observation the record holds. */
  predicate AnyMaps(rec: Record, sensorMap: SensorMap)
  {
    exists k | k in sensorMap :: sensorMap[k] in rec
  }

  /** What the driver needs of its input: a record whose renaming is not
      empty has a `dateTime` and a `usUnits` to copy (otherwise KeyError). */
  predicate Remappable(oldrec: Option<Record>, sensorMap: SensorMap)
  {
    Truthy(oldrec) && AnyMaps(oldrec.value, sensorMap) ==>
      DATE_TIME in oldrec.value && US_UNITS in oldrec.value
  }

  /** Every field whose observation the record holds, with that value. */
  function Renamed(rec: Record, sensorMap: SensorMap): (r: Record)
    ensures r == map[] <==> !AnyMaps(rec, sensorMap)
  {
    var r := map k | k in sensorMap && sensorMap[k] in rec :: rec[sensorMap[k]];
    assert AnyMaps(rec, sensorMap) ==> r != map[] by {
      if AnyMaps(rec, sensorMap) {
        var k :| k in sensorMap && sensorMap[k] in rec;
        assert k in r;
      }
    }
    r
  }

  /** The record `_sensors_to_fields` returns. */
  function MappedRecord(oldrec: Option<Record>, sensorMap: SensorMap): (r: Option<Record>)
    requires Remappable(oldrec, sensorMap)
    ensures r.None? <==> !Truthy(oldrec) || !AnyMaps(oldrec.value, sensorMap)
    ensures r.Some? ==>
      && DATE_TIME in r.value && r.value[DATE_TIME] == oldrec.value[DATE_TIME]
      && US_UNITS in r.value && r.value[US_UNITS] == oldrec.value[US_UNITS]
    ensures r.Some? ==> forall k | k != DATE_TIME && k != US_UNITS ::
      k in r.value <==> k in sensorMap && sensorMap[k] in oldrec.value
    ensures r.Some? ==> forall k | k in r.value && k != DATE_TIME && k != US_UNITS ::
      k in sensorMap && r.value[k] == oldrec.value[sensorMap[k]]
  {
    if Truthy(oldrec) then
      var newrec := Renamed(oldrec.value, sensorMap);
      if newrec != map[] then
        Some(newrec[DATE_TIME := oldrec.value[DATE_TIME]][US_UNITS := oldrec.value[US_UNITS]])
      else None
    else None
  }

  /** The driver's loop over the sensor map, inserting one field at a time. */
  method SensorsToFields(oldrec: Option<Record>, sensorMap: SensorMap) returns (r: Option<Record>)
    requires Remappable(oldrec, sensorMap)
    ensures r == MappedRecord(oldrec, sensorMap)
  {
    r := None;
    if oldrec.Some? && oldrec.value != map[] {
      var rec := oldrec.value;
      var newrec: Record := map[];
      var todo := sensorMap.Keys;
      while todo != {}
        invariant todo <= sensorMap.Keys
        invariant forall k :: k in newrec <==> k in sensorMap && k !in todo && sensorMap[k] in rec
        invariant forall k | k in newrec :: newrec[k] == rec[sensorMap[k]]
        decreases |todo|
      {
        var k :| k in todo;
        if sensorMap[k] in rec {
          newrec := newrec[k := rec[sensorMap[k]]];
        }
        todo := todo - {k};
      }
      assert newrec == Renamed(rec, sensorMap);
      if newrec != map[] {
        newrec := newrec[DATE_TIME := rec[DATE_TIME]];
        newrec := newrec[US_UNITS := rec[US_UNITS]];
        r := Some(newrec);
      }
    }
  }

  /** Remapping keeps the decode time and the unit tag. */
  lemma MappedRecordStamped(oldrec: Option<Record>, sensorMap: SensorMap, now: int)
    requires oldrec.Some? && Stamped(oldrec.value, now)
    ensures Remappable(oldrec, sensorMap)
    ensures MappedRecord(oldrec, sensorMap).Some? ==> Stamped(MappedRecord(oldrec, sensorMap).value, now)
  {
  }
}
