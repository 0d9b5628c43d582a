/** Recent traffic: a ring of samples, and the rate over the part of it inside a window. */
module TrafficSamples {
  import opened NarFormat
  import opened Options

  const CAPACITY: nat := 61

  datatype Sample = Sample(
    at: real,
    uploadBytes: u64,
    downloadBytes: u64,
    artifactRequests: Option<u64>,
    cpuSeconds: Option<real>,
    overflowed: bool)

  datatype Rate = Rate(
    windowSeconds: nat,
    coverage: real,
    uploadRate: real,
    artifactRate: real,
    requestRate: Option<real>,
    cpuCores: Option<real>)

  /* ---- what is retained, and the rate over it ---- */

  function Recent<T>(history: seq<T>): (r: seq<T>)
    ensures |r| == if |history| < CAPACITY then |history| else CAPACITY
  {
    if |history| <= CAPACITY then history else history[|history| - CAPACITY..]
  }

  predicate InWindow(latest: Sample, s: Sample, window: nat) {
    s.at <= latest.at && latest.at - s.at <= window as real
  }

  /** The first sample, in order of recording, no further back than the window. */
  function FirstInWindow(samples: seq<Sample>, latest: Sample, window: nat): (r: Option<nat>)
    ensures r.Some? ==> r.value < |samples| && InWindow(latest, samples[r.value], window)
    ensures r.Some? ==> forall j :: 0 <= j < r.value ==> !InWindow(latest, samples[j], window)
    ensures r.None? ==> forall j :: 0 <= j < |samples| ==> !InWindow(latest, samples[j], window)
  {
    if samples == [] then None
    else if InWindow(latest, samples[0], window) then Some(0)
    else
      match FirstInWindow(samples[1..], latest, window)
      case None => None
      case Some(k) => Some(k + 1)
  }

  function RateBetween(first: Sample, latest: Sample, window: nat): Option<Rate> {
    var coverage := latest.at - first.at;
    if latest.uploadBytes < first.uploadBytes || latest.downloadBytes < first.downloadBytes then None
    else if coverage <= 0.0 then None
    else Some(Rate(
      window,
      coverage,
      (latest.uploadBytes - first.uploadBytes) as real / coverage,
      (latest.downloadBytes - first.downloadBytes) as real / coverage,
      if first.artifactRequests.Some? && latest.artifactRequests.Some?
         && first.artifactRequests.value <= latest.artifactRequests.value
      then Some((latest.artifactRequests.value - first.artifactRequests.value) as real / coverage) else None,
      if first.cpuSeconds.Some? && latest.cpuSeconds.Some? && first.cpuSeconds.value <= latest.cpuSeconds.value
      then Some((latest.cpuSeconds.value - first.cpuSeconds.value) / coverage) else None))
  }

  function RateOf(samples: seq<Sample>, window: nat): Option<Rate> {
    if samples == [] then None
    else
      var latest := samples[|samples| - 1];
      if latest.overflowed then None
      else
        var k :- FirstInWindow(samples, latest, window);
        RateBetween(samples[k], latest, window)
  }

  predicate InOrder(samples: seq<Sample>) {
    forall i, j :: 0 <= i < j < |samples| ==> samples[i].at <= samples[j].at
  }

  /** With times in order the rate covers as much of the window as the retained samples allow. */
  lemma CoverageMaximal(samples: seq<Sample>, window: nat)
    requires InOrder(samples) && RateOf(samples, window).Some?
    ensures var latest := samples[|samples| - 1];
            var r := RateOf(samples, window).value;
            && 0.0 < r.coverage <= window as real
            && (exists i :: 0 <= i < |samples| && MeasuredFrom(r, samples[i], latest))
            && (forall j :: 0 <= j < |samples| && latest.at - samples[j].at <= window as real ==>
                  latest.at - samples[j].at <= r.coverage)
            && r.windowSeconds == window
  {
    var latest := samples[|samples| - 1];
    var k := FirstInWindow(samples, latest, window).value;
    forall j | 0 <= j < |samples| && latest.at - samples[j].at <= window as real
      ensures latest.at - samples[j].at <= latest.at - samples[k].at
    {
      assert j == |samples| - 1 || samples[j].at <= latest.at;
      assert InWindow(latest, samples[j], window);
    }
    assert RateOf(samples, window) == RateBetween(samples[k], latest, window);
    RateMeasures(samples[k], latest, window);
  }

  /** The rate times the time covered is what was moved between the two samples; the optional rates are there
      exactly when both samples have the figure and it did not fall. */
  predicate MeasuredFrom(r: Rate, first: Sample, latest: Sample) {
    && r.coverage == latest.at - first.at
    && r.uploadRate * r.coverage == (latest.uploadBytes - first.uploadBytes) as real
    && r.artifactRate * r.coverage == (latest.downloadBytes - first.downloadBytes) as real
    && (r.requestRate.Some? <==>
          && first.artifactRequests.Some? && latest.artifactRequests.Some?
          && first.artifactRequests.value <= latest.artifactRequests.value)
    && (r.requestRate.Some? ==>
          r.requestRate.value * r.coverage == (latest.artifactRequests.value - first.artifactRequests.value) as real)
    && (r.cpuCores.Some? <==>
          first.cpuSeconds.Some? && latest.cpuSeconds.Some? && first.cpuSeconds.value <= latest.cpuSeconds.value)
    && (r.cpuCores.Some? ==> r.cpuCores.value * r.coverage == latest.cpuSeconds.value - first.cpuSeconds.value)
  }

  lemma RateMeasures(first: Sample, latest: Sample, window: nat)
    requires RateBetween(first, latest, window).Some?
    ensures MeasuredFrom(RateBetween(first, latest, window).value, first, latest)
  {
  }

  /** When there is no rate: nothing recorded, counters overflowed, or since the oldest sample in the window no
      time has passed or a byte counter fell. */
  lemma NoRate(samples: seq<Sample>, window: nat)
    ensures RateOf(samples, window).None? <==>
            || samples == []
            || samples[|samples| - 1].overflowed
            || exists k :: 0 <= k < |samples| && OldestInWindow(samples, k, window)
                 && Unmeasurable(samples[k], samples[|samples| - 1])
  {
    if samples != [] {
      var latest := samples[|samples| - 1];
      assert InWindow(latest, latest, window);
      var k := FirstInWindow(samples, latest, window).value;
      forall j | 0 <= j < |samples| && OldestInWindow(samples, j, window) ensures j == k {
      }
      assert OldestInWindow(samples, k, window);
      assert samples[k].at <= latest.at;
      assert RateBetween(samples[k], latest, window).None? <==> Unmeasurable(samples[k], latest);
    }
  }

  predicate Unmeasurable(first: Sample, latest: Sample) {
    latest.at == first.at || latest.uploadBytes < first.uploadBytes || latest.downloadBytes < first.downloadBytes
  }

  predicate OldestInWindow(samples: seq<Sample>, k: nat, window: nat)
    requires k < |samples|
  {
    var latest := samples[|samples| - 1];
    InWindow(latest, samples[k], window) && forall j :: 0 <= j < k ==> !InWindow(latest, samples[j], window)
  }

  /* ---- the ring ---- */

  /** Where the k-th sample ever recorded is kept. */
  function Slot(k: nat): nat {
    k % CAPACITY
  }

  function Around(index: nat, offset: nat): nat {
    (index + offset) % CAPACITY
  }

  class Ring {
    const samples: array<Option<Sample>>
    var next: nat
    var len: nat
    ghost var history: seq<Sample>

    ghost predicate Valid()
      reads this, samples
    {
      && samples.Length == CAPACITY
      && next == Slot(|history|)
      && len == |Recent(history)|
      && forall k :: |history| - len <= k < |history| ==> samples[Slot(k)] == Some(history[k])
    }

    constructor ()
      ensures Valid() && history == [] && fresh(samples)
    {
      samples := new Option<Sample>[CAPACITY](_ => None);
      next, len, history := 0, 0, [];
    }

    method Record(sample: Sample)
      requires Valid()
      modifies this, samples
      ensures Valid() && history == old(history) + [sample]
    {
      samples[next] := Some(sample);
      NextSlot(|history|);
      next := (next + 1) % CAPACITY;
      len := if len + 1 < CAPACITY then len + 1 else CAPACITY;
      history := history + [sample];
      forall k | |history| - len <= k < |history| ensures samples[Slot(k)] == Some(history[k]) {
        if k < |history| - 1 { SlotsDiffer(k, |history| - 1); }
      }
    }

    /** The retained samples, oldest first. */
    method ChronologicalSamples() returns (r: seq<Sample>)
      requires Valid()
      ensures r == Recent(history) == if |history| <= 61 then history else history[|history| - 61..]
    {
      assert Recent(history) == if |history| <= 61 then history else history[|history| - 61..];
      assert len <= CAPACITY && len == |Recent(history)|;
      hide Valid, Around, OldestIndex, Recent;
      var oldest := OldestIndex();
      ghost var kept := Recent(history);
      r := [];
      for offset := 0 to len
        invariant r == kept[..offset]
      {
        Retained(offset);
        var sample := samples[Around(oldest, offset)];
        if sample.Some? { r := r + [sample.value]; }
      }
    }

    function OldestIndex(): nat
      requires len <= CAPACITY
      reads this
    {
      (next + CAPACITY - len) % CAPACITY
    }

    lemma Retained(offset: nat)
      requires Valid() && offset < len
      ensures len <= CAPACITY && Around(OldestIndex(), offset) < samples.Length && len == |Recent(history)|
      ensures samples[Around(OldestIndex(), offset)] == Some(Recent(history)[offset])
    {
      hide Slot, Around;
      OldestSlot(|history|, len);
      AroundOldest(|history|, len, offset);
    }

    method RateOver(window: nat) returns (rate: Option<Rate>)
      requires Valid()
      ensures rate == RateOf(Recent(history), window)
    {
      var retained := ChronologicalSamples();
      if |retained| == 0 { return None; }
      var latest := retained[|retained| - 1];
      if latest.overflowed { return None; }
      var i := 0;
      while i < |retained| && !InWindow(latest, retained[i], window)
        invariant 0 <= i <= |retained|
        invariant forall j :: 0 <= j < i ==> !InWindow(latest, retained[j], window)
      {
        i := i + 1;
      }
      if i == |retained| { return None; }
      rate := RateBetween(retained[i], latest, window);
    }
  }

  lemma NextSlot(n: nat)
    ensures (Slot(n) + 1) % CAPACITY == Slot(n + 1)
  {
  }

  lemma SlotsDiffer(a: nat, b: nat)
    requires a < b < a + CAPACITY
    ensures Slot(a) != Slot(b)
  {
  }

  lemma OldestSlot(n: nat, len: nat)
    requires len <= n && len <= CAPACITY
    ensures (Slot(n) + CAPACITY - len) % CAPACITY == Slot(n - len)
  {
  }

  lemma AroundOldest(n: nat, len: nat, offset: nat)
    requires len <= n && len <= CAPACITY
    ensures Around((Slot(n) + CAPACITY - len) % CAPACITY, offset) == Slot(n - len + offset) < CAPACITY
  {
    OldestSlot(n, len);
    SlotOffset(n - len, offset);
  }

  lemma SlotOffset(a: nat, offset: nat)
    ensures (Slot(a) + offset) % CAPACITY == Slot(a + offset)
  {
  }
}
