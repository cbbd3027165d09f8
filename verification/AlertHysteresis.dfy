/**
  Disk and temperature alerts with hysteresis (`lib/disk-alerts.ts`, `lib/cpu-temp.ts`,
  `server/services/disk-watch.ts`).
*/
module AlertHysteresis {
  import opened Text

  // ---------- settings ----------

  /** A JavaScript number. */
  datatype Number = Finite(x: real) | Infinity | MinusInfinity | NaN

  datatype Limits = Limits(alert: int, clear: int)

  /** `Math.round` */
  function Round(x: real): int {
    (x + 0.5).Floor
  }

  /** A setting that is no finite number falls back to the default. */
  function Clamp(value: Number, fallback: int, low: int, high: int): (n: int)
    requires low <= fallback <= high
    ensures low <= n <= high
  {
    match value
    case Finite(x) =>
      var n := Round(x);
      if n < low then low else if n > high then high else n
    case _ => fallback
  }

  function DiskLimits(alert: Number, clear: Number): (l: Limits)
    ensures 1 <= l.alert <= 99 && 0 <= l.clear < l.alert
  {
    var alertPercent := Clamp(alert, 90, 1, 99);
    var clearPercent := Clamp(clear, 85, 1, 99);
    Limits(alertPercent, if clearPercent >= alertPercent then Max(0, alertPercent - 5) else clearPercent)
  }

  /** The two limits coincide just where the alert limit is the lowest there is. */
  function CpuLimits(alert: Number, clear: Number): (l: Limits)
    ensures 40 <= l.clear <= l.alert <= 120
    ensures l.clear == l.alert <==> l.alert == 40
  {
    var alertCelsius := Clamp(alert, 85, 40, 120);
    var clearCelsius := Clamp(clear, 75, 40, 120);
    Limits(alertCelsius, if clearCelsius >= alertCelsius then Max(40, alertCelsius - 5) else clearCelsius)
  }

  /** The integer that a setting stands for: the nearest one in the range, halves upwards, or the default. */
  ghost predicate StandsFor(n: int, value: Number, fallback: int, low: int, high: int) {
    match value
    case Finite(x) =>
      if x < low as real then n == low
      else if x > high as real then n == high
      else x - 0.5 < n as real <= x + 0.5
    case _ => n == fallback
  }

  lemma ClampStandsFor(value: Number, fallback: int, low: int, high: int)
    requires low <= fallback <= high
    ensures StandsFor(Clamp(value, fallback, low, high), value, fallback, low, high)
  {
  }

  /** The limits for disks: 90 and 85 per cent unless set, and never a clear limit at the alert limit or above. */
  lemma DiskLimitsAre(alert: Number, clear: Number, a: int, c: int)
    requires StandsFor(a, alert, 90, 1, 99) && StandsFor(c, clear, 85, 1, 99)
    ensures DiskLimits(alert, clear) == Limits(a, if c < a then c else if a < 5 then 0 else a - 5)
  {
    ClampStandsFor(alert, 90, 1, 99);
    ClampStandsFor(clear, 85, 1, 99);
  }

  /** The limits for processors: 85 and 75 degrees unless set. */
  lemma CpuLimitsAre(alert: Number, clear: Number, a: int, c: int)
    requires StandsFor(a, alert, 85, 40, 120) && StandsFor(c, clear, 75, 40, 120)
    ensures CpuLimits(alert, clear) == Limits(a, if c < a then c else if a < 45 then 40 else a - 5)
  {
    ClampStandsFor(alert, 85, 40, 120);
    ClampStandsFor(clear, 75, 40, 120);
  }

  // ---------- one sample ----------

  predicate AtLeast(value: Number, limit: int) {
    value == Infinity || (value.Finite? && value.x >= limit as real)
  }

  predicate Below(value: Number, limit: int) {
    value == MinusInfinity || (value.Finite? && value.x < limit as real)
  }

  datatype Answer = Answer(notify: bool, notified: bool)

  /** `applyDiskWatchState`, which `applyCpuTempWatchState` passes on to */
  function Apply(notified: bool, value: Number, l: Limits): Answer {
    if AtLeast(value, l.alert) && !notified then Answer(true, true)
    else if Below(value, l.clear) then Answer(false, false)
    else Answer(false, notified)
  }

  // ---------- runs of samples ----------

  function FlagAfter(values: seq<Number>, l: Limits): bool {
    values != [] && Apply(FlagAfter(values[..|values| - 1], l), values[|values| - 1], l).notified
  }

  /** The sample at `i` raises an alert. */
  predicate NotifiesAt(values: seq<Number>, l: Limits, i: nat)
    requires i < |values|
  {
    Apply(FlagAfter(values[..i], l), values[i], l).notify
  }

  /** Some sample reached the alert limit and none has been below the clear limit since. */
  ghost predicate Hot(values: seq<Number>, l: Limits) {
    exists i :: 0 <= i < |values| && HotSince(values, l, i)
  }

  ghost predicate HotSince(values: seq<Number>, l: Limits, i: nat)
    requires i < |values|
  {
    AtLeast(values[i], l.alert) && forall j :: i < j < |values| ==> !Below(values[j], l.clear)
  }

  lemma HotSnoc(values: seq<Number>, value: Number, l: Limits)
    ensures Hot(values + [value], l) <==> AtLeast(value, l.alert) || (Hot(values, l) && !Below(value, l.clear))
  {
    var more, n := values + [value], |values|;
    assert AtLeast(value, l.alert) ==> HotSince(more, l, n);
    if Hot(values, l) && !Below(value, l.clear) {
      var i :| 0 <= i < n && HotSince(values, l, i);
      assert HotSince(more, l, i);
    }
    if Hot(more, l) && !AtLeast(value, l.alert) {
      var i :| 0 <= i < |more| && HotSince(more, l, i);
      assert !Below(more[n], l.clear);
      forall j | i < j < n
        ensures !Below(values[j], l.clear)
      {
        assert more[j] == values[j];
      }
      assert HotSince(values, l, i);
    }
  }

  /** The flag says whether an alert is due to be over. */
  lemma {:induction false} FlagIsHot(values: seq<Number>, l: Limits)
    requires l.clear <= l.alert
    ensures FlagAfter(values, l) <==> Hot(values, l)
    decreases |values|
  {
    if values != [] {
      var early, value := values[..|values| - 1], values[|values| - 1];
      FlagIsHot(early, l);
      HotSnoc(early, value, l);
      assert values == early + [value];
    }
  }

  /** For limits in the wrong order the flag would be lost by a second sample at the alert limit. */
  lemma FlagIsHotIff(l: Limits)
    ensures (forall values :: FlagAfter(values, l) <==> Hot(values, l)) <==> l.clear <= l.alert
  {
    if l.clear <= l.alert {
      forall values
        ensures FlagAfter(values, l) <==> Hot(values, l)
      {
        FlagIsHot(values, l);
      }
    } else {
      var at := Finite(l.alert as real);
      var values := [at, at];
      assert HotSince(values, l, 1);
      assert values[..1] == [at] && [at][..0] == [];
      assert FlagAfter([at], l);
      assert !FlagAfter(values, l) && Hot(values, l);
    }
  }

  /** An alert is raised by a sample at the alert limit that finds no earlier one pending. */
  lemma NotifiesIff(values: seq<Number>, l: Limits, i: nat)
    requires l.clear <= l.alert && i < |values|
    ensures NotifiesAt(values, l, i) <==> AtLeast(values[i], l.alert) && !Hot(values[..i], l)
  {
    FlagIsHot(values[..i], l);
  }

  /** Between two alerts some sample was below the clear limit. */
  lemma AlertsAreSeparated(values: seq<Number>, l: Limits, i: nat, j: nat)
    requires l.clear <= l.alert && i < j < |values|
    requires NotifiesAt(values, l, i) && NotifiesAt(values, l, j)
    ensures exists k :: i < k < j && Below(values[k], l.clear)
  {
    NotifiesIff(values, l, i);
    NotifiesIff(values, l, j);
    var early := values[..j];
    if forall k :: i < k < j ==> !Below(values[k], l.clear) {
      assert HotSince(early, l, i);
    }
  }

  // ---------- scans of many devices ----------

  datatype Sample = Sample(key: string, value: Number)

  /** The flags of the devices and the keys an alert was raised for. */
  datatype Watch = Watch(flags: map<string, bool>, alerts: seq<string>)

  predicate Flag(flags: map<string, bool>, key: string) {
    key in flags && flags[key]
  }

  predicate Reports(scan: seq<Sample>, key: string) {
    exists i :: 0 <= i < |scan| && scan[i].key == key
  }

  /** Devices the scan does not report are forgotten. */
  function Keep(flags: map<string, bool>, scan: seq<Sample>): map<string, bool> {
    map key | key in flags && Reports(scan, key) :: flags[key]
  }

  function Note(w: Watch, sample: Sample, l: Limits): Watch {
    var next := Apply(Flag(w.flags, sample.key), sample.value, l);
    Watch(w.flags[sample.key := next.notified], if next.notify then w.alerts + [sample.key] else w.alerts)
  }

  function NoteAll(w: Watch, scan: seq<Sample>, l: Limits): Watch {
    if scan == [] then w else Note(NoteAll(w, scan[..|scan| - 1], l), scan[|scan| - 1], l)
  }

  /** One cycle, `remember` of the disk watch. */
  function Scan(flags: map<string, bool>, scan: seq<Sample>, l: Limits): Watch {
    NoteAll(Watch(Keep(flags, scan), []), scan, l)
  }

  method Remember(flags: map<string, bool>, scan: seq<Sample>, l: Limits)
    returns (notified: map<string, bool>, alerts: seq<string>)
    ensures Watch(notified, alerts) == Scan(flags, scan, l)
  {
    notified, alerts := Keep(flags, scan), [];
    for n := 0 to |scan|
      invariant Watch(notified, alerts) == NoteAll(Watch(Keep(flags, scan), []), scan[..n], l)
    {
      assert scan[..n + 1][..n] == scan[..n];
      var sample := scan[n];
      var next := Apply(Flag(notified, sample.key), sample.value, l);
      notified := notified[sample.key := next.notified];
      if next.notify {
        alerts := alerts + [sample.key];
      }
    }
    assert scan[..|scan|] == scan;
  }

  function Run(scans: seq<seq<Sample>>, l: Limits): map<string, bool> {
    if scans == [] then map[]
    else Scan(Run(scans[..|scans| - 1], l), scans[|scans| - 1], l).flags
  }

  function Reading(sample: Sample, key: string): seq<Number> {
    if sample.key == key then [sample.value] else []
  }

  /** What one scan says of one device. */
  function Readings(scan: seq<Sample>, key: string): seq<Number> {
    if scan == [] then []
    else
      var last := scan[|scan| - 1];
      Readings(scan[..|scan| - 1], key) + Reading(last, key)
  }

  /** What the scans said of a device since one last did not report it. */
  function Since(scans: seq<seq<Sample>>, key: string): seq<Number> {
    if scans == [] then []
    else
      var scan := scans[|scans| - 1];
      if Reports(scan, key) then Since(scans[..|scans| - 1], key) + Readings(scan, key) else []
  }

  lemma NoteFollows(w: Watch, sample: Sample, l: Limits, key: string, before: seq<Number>)
    requires Flag(w.flags, key) == FlagAfter(before, l)
    ensures Flag(Note(w, sample, l).flags, key) == FlagAfter(before + Reading(sample, key), l)
  {
    if sample.key == key {
      FlagSnoc(before, sample.value, l);
    } else {
      assert before + [] == before;
    }
  }

  lemma ReadingsEnd(before: seq<Number>, scan: seq<Sample>, key: string)
    requires scan != []
    ensures var n := |scan| - 1;
            before + Readings(scan, key) == (before + Readings(scan[..n], key)) + Reading(scan[n], key)
  {
    ConcatAssociates(before, Readings(scan[..|scan| - 1], key), Reading(scan[|scan| - 1], key));
  }

  /** Going through a scan leaves a device with the flag its own samples lead to. */
  lemma {:induction false} NoteAllFollows(w: Watch, scan: seq<Sample>, l: Limits, key: string, before: seq<Number>)
    requires Flag(w.flags, key) == FlagAfter(before, l)
    ensures Flag(NoteAll(w, scan, l).flags, key) == FlagAfter(before + Readings(scan, key), l)
    decreases |scan|
  {
    if scan == [] {
      assert before + [] == before;
    } else {
      var n := |scan| - 1;
      NoteAllFollows(w, scan[..n], l, key, before);
      NoteFollows(NoteAll(w, scan[..n], l), scan[n], l, key, before + Readings(scan[..n], key));
      ReadingsEnd(before, scan, key);
    }
  }

  lemma FlagSnoc(values: seq<Number>, value: Number, l: Limits)
    ensures FlagAfter(values + [value], l) == Apply(FlagAfter(values, l), value, l).notified
  {
    assert (values + [value])[..|values|] == values;
  }

  lemma {:induction false} NoReadings(scan: seq<Sample>, key: string)
    ensures Readings(scan, key) != [] <==> Reports(scan, key)
    decreases |scan|
  {
    if scan != [] {
      var n := |scan| - 1;
      NoReadings(scan[..n], key);
      if Reports(scan[..n], key) {
        var i :| 0 <= i < n && scan[..n][i].key == key;
        assert scan[i].key == key;
      }
      if Reports(scan, key) && scan[n].key != key {
        var i :| 0 <= i < |scan| && scan[i].key == key;
        assert scan[..n][i].key == key;
      }
    }
  }

  lemma {:induction false} KeysOfNoteAll(w: Watch, scan: seq<Sample>, l: Limits, key: string)
    requires key !in w.flags && !Reports(scan, key)
    ensures key !in NoteAll(w, scan, l).flags
    decreases |scan|
  {
    if scan != [] {
      var n := |scan| - 1;
      assert scan[n].key != key;
      assert forall i :: 0 <= i < n ==> scan[..n][i] == scan[i];
      KeysOfNoteAll(w, scan[..n], l, key);
    }
  }

  /** Over any run of scans the flag of a device depends on its own samples since it was last missing. */
  lemma {:induction false} RunFollowsEachDevice(scans: seq<seq<Sample>>, l: Limits, key: string)
    ensures Flag(Run(scans, l), key) == FlagAfter(Since(scans, key), l)
    decreases |scans|
  {
    if scans != [] {
      var early, scan := scans[..|scans| - 1], scans[|scans| - 1];
      RunFollowsEachDevice(early, l, key);
      var w := Watch(Keep(Run(early, l), scan), []);
      if Reports(scan, key) {
        assert Flag(w.flags, key) == Flag(Run(early, l), key);
        NoteAllFollows(w, scan, l, key, Since(early, key));
      } else {
        KeysOfNoteAll(w, scan, l, key);
      }
    }
  }

  /** So a device is flagged just while one of those samples was hot and none has cleared it. */
  lemma FlaggedIff(scans: seq<seq<Sample>>, l: Limits, key: string)
    requires l.clear <= l.alert
    ensures Flag(Run(scans, l), key) <==> Hot(Since(scans, key), l)
  {
    RunFollowsEachDevice(scans, l, key);
    FlagIsHot(Since(scans, key), l);
  }

  /** How many of the samples raise an alert. */
  function NotifyCount(values: seq<Number>, l: Limits): nat {
    if values == [] then 0
    else
      var n := |values| - 1;
      NotifyCount(values[..n], l) + if NotifiesAt(values, l, n) then 1 else 0
  }

  lemma NotifyCountSnoc(values: seq<Number>, value: Number, l: Limits)
    ensures NotifyCount(values + [value], l)
         == NotifyCount(values, l) + if Apply(FlagAfter(values, l), value, l).notify then 1 else 0
  {
    assert (values + [value])[..|values|] == values;
  }

  lemma NoteAlerts(w: Watch, sample: Sample, l: Limits, key: string, before: seq<Number>)
    requires Flag(w.flags, key) == FlagAfter(before, l)
    ensures multiset(Note(w, sample, l).alerts)[key]
         == multiset(w.alerts)[key] + NotifyCount(before + Reading(sample, key), l) - NotifyCount(before, l)
  {
    if sample.key == key {
      NotifyCountSnoc(before, sample.value, l);
    } else {
      assert before + [] == before;
    }
  }

  /** A scan raises as many alerts for a device as its own samples ask for. */
  lemma {:induction false} ScanAlerts(w: Watch, scan: seq<Sample>, l: Limits, key: string, before: seq<Number>)
    requires Flag(w.flags, key) == FlagAfter(before, l)
    ensures multiset(NoteAll(w, scan, l).alerts)[key]
         == multiset(w.alerts)[key] + NotifyCount(before + Readings(scan, key), l) - NotifyCount(before, l)
    decreases |scan|
  {
    if scan == [] {
      assert before + [] == before;
    } else {
      var n := |scan| - 1;
      ScanAlerts(w, scan[..n], l, key, before);
      NoteAllFollows(w, scan[..n], l, key, before);
      NoteAlerts(NoteAll(w, scan[..n], l), scan[n], l, key, before + Readings(scan[..n], key));
      ReadingsEnd(before, scan, key);
    }
  }

  lemma KeepFlag(flags: map<string, bool>, scan: seq<Sample>, key: string)
    ensures Flag(Keep(flags, scan), key) <==> Reports(scan, key) && Flag(flags, key)
  {
  }

  lemma SinceSnoc(scans: seq<seq<Sample>>, scan: seq<Sample>, key: string)
    ensures Since(scans + [scan], key) == if Reports(scan, key) then Since(scans, key) + Readings(scan, key) else []
  {
    assert (scans + [scan])[..|scans|] == scans;
  }

  lemma OneScanAlerts(flags: map<string, bool>, scan: seq<Sample>, l: Limits, key: string, before: seq<Number>)
    requires Flag(Keep(flags, scan), key) == FlagAfter(before, l)
    ensures multiset(Scan(flags, scan, l).alerts)[key]
         == NotifyCount(before + Readings(scan, key), l) - NotifyCount(before, l)
  {
    ScanAlerts(Watch(Keep(flags, scan), []), scan, l, key, before);
  }

  /**
    At the end of any run the last scan raises the alerts that its samples add to those of the device's
    samples before, and none for a device it does not report.
  */
  lemma LastScanAlerts(scans: seq<seq<Sample>>, scan: seq<Sample>, l: Limits, key: string)
    ensures multiset(Scan(Run(scans, l), scan, l).alerts)[key]
         == if Reports(scan, key)
            then NotifyCount(Since(scans + [scan], key), l) - NotifyCount(Since(scans, key), l) else 0
  {
    NoReadings(scan, key);
    KeepFlag(Run(scans, l), scan, key);
    SinceSnoc(scans, scan, key);
    if Reports(scan, key) {
      RunFollowsEachDevice(scans, l, key);
      OneScanAlerts(Run(scans, l), scan, l, key, Since(scans, key));
    } else {
      assert [] + Readings(scan, key) == [];
      OneScanAlerts(Run(scans, l), scan, l, key, []);
    }
  }
}
