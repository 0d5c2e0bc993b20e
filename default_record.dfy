/**
 * `getDefaultAttendanceRecord` (helper.py:255-267): the record of one day,
 * a dict holding the day under `"day"` and a zero count under each hourly
 * session key from `"0900"` to `"1600"`. A dict literal is modelled as its
 * entries in insertion order.
 */
module DefaultRecord {
  import opened Outcomes
  import opened Builtins
  import opened AttendanceTable

  /** The values of the record: the day itself, or a session count. */
  datatype RecordValue = Day(date: string) | Count(n: int)

  datatype Entry = Entry(key: string, value: RecordValue)

  /** The keys of a dict, in insertion order. */
  function Keys(entries: seq<Entry>): (r: seq<string>)
    ensures |r| == |entries|
    ensures forall i :: 0 <= i < |r| ==> r[i] == entries[i].key
  {
    seq(|entries|, i requires 0 <= i < |entries| => entries[i].key)
  }

  /** `d[key]`, None where Python raises KeyError; a repeated key keeps its last value. */
  function Lookup(entries: seq<Entry>, key: string): (r: Option<RecordValue>)
    ensures r.None? <==> key !in Keys(entries)
    decreases |entries|
  {
    if |entries| == 0 then None
    else if entries[|entries| - 1].key == key then Some(entries[|entries| - 1].value)
    else
      assert Keys(entries[..|entries| - 1]) == Keys(entries)[..|entries| - 1];
      Lookup(entries[..|entries| - 1], key)
  }

  /** The keys are pairwise different. */
  predicate DistinctKeys(entries: seq<Entry>)
  {
    forall i, j :: 0 <= i < |entries| && 0 <= j < |entries| && i != j ==> entries[i].key != entries[j].key
  }

  /** In a dict whose keys differ, each entry is what its key looks up. */
  lemma {:induction false} LookupOfDistinct(entries: seq<Entry>, i: nat)
    requires DistinctKeys(entries) && i < |entries|
    ensures Lookup(entries, entries[i].key) == Some(entries[i].value)
    decreases |entries|
  {
    var n := |entries|;
    if i != n - 1 {
      var prefix := entries[..n - 1];
      assert entries[n - 1].key != entries[i].key;
      assert prefix[i] == entries[i];
      LookupOfDistinct(prefix, i);
    }
  }

  /**
   * The session key of the hour `h` of a day: two digits of the hour and
   * `00`, the four-character form the session-time padding produces
   * (helper.py:200-202).
   */
  function HourKey(h: nat): (k: string)
    requires h < 24
    ensures |k| == 4 && AllDigits(k)
  {
    [DigitChar(h / 10), DigitChar(h % 10), '0', '0']
  }

  /** The session keys of the hours 9 to 16, computed rather than spelled out. */
  function HourKeys(): (r: seq<string>)
    ensures |r| == 8
    ensures forall i :: 0 <= i < 8 ==> r[i] == HourKey(9 + i)
  {
    seq(8, i requires 0 <= i < 8 => HourKey(9 + i))
  }

  /**
   * The dict literal of helper.py:264-267: `today` under `day`, then a zero
   * count under each hourly session key in order.
   */
  function DefaultAttendanceRecord(today: string): (r: seq<Entry>)
    ensures Keys(r) == ["day"] + HourKeys()
    ensures r[0].value == Day(today)
    ensures forall i :: 1 <= i < |r| ==> r[i].value == Count(0)
  {
    [Entry("day", Day(today)),
     Entry("0900", Count(0)), Entry("1000", Count(0)), Entry("1100", Count(0)), Entry("1200", Count(0)),
     Entry("1300", Count(0)), Entry("1400", Count(0)), Entry("1500", Count(0)), Entry("1600", Count(0))]
  }

  /** An hour's key reads as the number `h * 100` and is left alone by the padding. */
  lemma HourKeyValue(h: nat)
    requires h < 24
    ensures DigitsValue(HourKey(h)) == 100 * h
    ensures ParseInt(HourKey(h)) == Some(100 * h)
    ensures PadTime(HourKey(h)) == HourKey(h)
  {
    var k, tens, units := HourKey(h), h / 10, h % 10;
    assert k[..1][..0] == [];
    assert DigitsValue(k[..1]) == tens;
    assert k[..2][..1] == k[..1];
    assert DigitsValue(k[..2]) == 10 * tens + units;
    assert k[..3][..2] == k[..2];
    assert DigitsValue(k[..3]) == 10 * (10 * tens + units);
    assert k[..|k| - 1] == k[..3];
  }

  /**
   * A session held at hour `h` whose time field was written as the number
   * `h * 100` (`900` for nine o'clock) comes out of the session-time padding
   * of `getAttendanceTableFor` (helper.py:200-202) as the record's key for
   * that hour, reading as the same number; for the hours 9 to 16 that key is
   * one of the default record's keys.
   */
  lemma PaddedHourIsRecordKey(h: nat, today: string)
    requires 1 <= h < 24
    ensures PadTime(Show(100 * h)) == HourKey(h)
    ensures ParseInt(PadTime(Show(100 * h))) == Some(100 * h)
    ensures 9 <= h <= 16 ==> HourKey(h) in Keys(DefaultAttendanceRecord(today))
  {
    HourTimeText(h);
    HourKeyValue(h);
    if 9 <= h <= 16 {
      assert HourKeys()[h - 9] == HourKey(h);
      assert Keys(DefaultAttendanceRecord(today))[h - 8] == HourKey(h);
    }
  }

  /** The decimal text of `h * 100`, padded, is the key of the hour `h`. */
  lemma HourTimeText(h: nat)
    requires 1 <= h < 24
    ensures PadTime(Show(100 * h)) == HourKey(h)
  {
    var zero := DigitChar(0);
    assert zero == '0';
    assert Show(100 * h) == Show(10 * h) + [zero] by {
      assert (100 * h) / 10 == 10 * h && (100 * h) % 10 == 0;
    }
    assert Show(10 * h) == Show(h) + [zero] by {
      assert (10 * h) / 10 == h && (10 * h) % 10 == 0;
    }
    if h < 10 {
      assert Show(h) == [DigitChar(h)];
      assert h / 10 == 0 && h % 10 == h;
    } else {
      assert Show(h / 10) == [DigitChar(h / 10)];
      assert Show(h) == [DigitChar(h / 10), DigitChar(h % 10)];
    }
  }

  /** No key of the record appears twice. */
  lemma DefaultRecordKeys(today: string)
    ensures DistinctKeys(DefaultAttendanceRecord(today))
  {
  }

  /**
   * Looking a key up in the default record gives the day under `day`, a zero
   * count under each hourly session key, and KeyError for any other key.
   */
  lemma DefaultRecordLookup(today: string, key: string)
    ensures Lookup(DefaultAttendanceRecord(today), key)
      == if key == "day" then Some(Day(today))
         else if key in HourKeys() then Some(Count(0))
         else None
  {
    var r := DefaultAttendanceRecord(today);
    DefaultRecordKeys(today);
    if key == "day" {
      LookupOfDistinct(r, 0);
    } else if key in HourKeys() {
      var i :| 0 <= i < 8 && HourKeys()[i] == key;
      assert r[i + 1].key == key && r[i + 1].value == Count(0);
      LookupOfDistinct(r, i + 1);
    } else {
      assert key !in Keys(r);
    }
  }
}
