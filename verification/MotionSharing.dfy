/** Sharing deformation data between the motion samples of a description. */
module MotionSharing {
  import opened Bytes
  import opened Wrappers

  /** The data compared byte by byte: strand roots, surface tangents and rebuilt guides. */
  datatype Deformation = Deformation(roots: seq<byte>, tangents: seq<byte>, guides: seq<byte>)

  const EMPTY := Deformation([], [], [])

  datatype Sample = Sample(source: nat, data: Deformation)

  datatype Error = InvalidSample | InconsistentSharing

  datatype Resolution = Resolved(index: nat, sample: Sample) | Failed(error: Error)

  /** The earliest sample with the same data as sample k. */
  ghost function Earliest(data: seq<Deformation>, k: nat): (e: nat)
    requires k < |data|
    ensures e <= k && data[e] == data[k]
    ensures forall i | 0 <= i < e :: data[i] != data[k]
  {
    EarliestFrom(data, k, 0)
  }

  ghost function EarliestFrom(data: seq<Deformation>, k: nat, from: nat): (e: nat)
    requires from <= k < |data| && forall i | 0 <= i < from :: data[i] != data[k]
    ensures from <= e <= k && data[e] == data[k]
    ensures forall i | 0 <= i < e :: data[i] != data[k]
    decreases k - from
  {
    if data[from] == data[k] then from else EarliestFrom(data, k, from + 1)
  }

  /** Two samples share the earliest one exactly when their data are equal; the earliest is its own. */
  lemma EarliestQuotient(data: seq<Deformation>, i: nat, k: nat)
    requires i < |data| && k < |data|
    ensures Earliest(data, i) == Earliest(data, k) <==> data[i] == data[k]
    ensures Earliest(data, Earliest(data, k)) == Earliest(data, k)
  {
    hide EarliestFrom;
  }

  /** A sample after sharing: its source, and its own data only if it is the source. */
  ghost predicate SharedAt(data: seq<Deformation>, s: Sample, k: nat)
    requires k < |data|
  {
    s.source == Earliest(data, k) && s.data == if s.source == k then data[k] else EMPTY
  }

  /** All samples refer back to one that keeps its own data. */
  ghost predicate Consistent(samples: seq<Sample>) {
    forall k | 0 <= k < |samples| ::
      samples[k].source <= k && samples[samples[k].source].source == samples[k].source
  }

  /**
   Imports the samples: a static deformation is imported once and shared by all, otherwise every
   sample starts out as its own source.
   */
  method Import(data: seq<Deformation>, isStatic: bool) returns (samples: array<Sample>)
    ensures fresh(samples) && samples.Length == |data|
    ensures !isStatic || |data| <= 1 ==> forall k | 0 <= k < |data| :: samples[k] == Sample(k, data[k])
    ensures isStatic && |data| > 1 ==> samples[0] == Sample(0, data[0])
    ensures isStatic && |data| > 1 ==> forall k | 0 < k < |data| :: samples[k] == Sample(0, EMPTY)
  {
    samples := new Sample[|data|](_ => Sample(0, EMPTY));
    for k := 0 to |data|
      invariant forall i | 0 <= i < k :: samples[i] == Sample(i, EMPTY)
    {
      samples[k] := Sample(k, EMPTY);
    }
    if isStatic && |data| > 1 {
      samples[0] := samples[0].(data := data[0]);
      for k := 1 to |data|
        invariant samples[0] == Sample(0, data[0])
        invariant forall i | 0 < i < |data| :: samples[i] == Sample(if i < k then 0 else i, EMPTY)
      {
        samples[k] := samples[k].(source := 0);
      }
    } else {
      for k := 0 to |data|
        invariant forall i | 0 <= i < k :: samples[i] == Sample(i, data[i])
        invariant forall i | k <= i < |data| :: samples[i] == Sample(i, EMPTY)
      {
        samples[k] := samples[k].(data := data[k]);
      }
    }
  }

  /** The first sample before k that is its own source and has the same data, if any. */
  method FindSource(samples: array<Sample>, k: nat) returns (r: Option<nat>)
    requires k < samples.Length
    ensures r.Some? ==> r.value < k && samples[r.value].source == r.value && samples[r.value].data == samples[k].data
    ensures forall c | 0 <= c < (if r.Some? then r.value else k) ::
      samples[c].source != c || samples[c].data != samples[k].data
  {
    for c := 0 to k
      invariant forall i | 0 <= i < c :: samples[i].source != i || samples[i].data != samples[k].data
    {
      if samples[c].source != c { continue; }
      if samples[c].data == samples[k].data { return Some(c); }
    }
    r := None;
  }

  /** Samples with equal data come to share the earliest of them, and give up their own copy. */
  method Share(samples: array<Sample>, ghost data: seq<Deformation>)
    requires samples.Length == |data| && forall k | 0 <= k < |data| :: samples[k] == Sample(k, data[k])
    modifies samples
    ensures forall k | 0 <= k < |data| :: SharedAt(data, samples[k], k)
  {
    if samples.Length == 0 { return; }
    hide Earliest;
    for k := 1 to samples.Length
      invariant forall i | 0 <= i < k :: SharedAt(data, samples[i], i)
      invariant forall i | k <= i < |data| :: samples[i] == Sample(i, data[i])
    {
      var found := FindSource(samples, k);
      SourceIsEarliest(data, samples[..], k, found);
      if found.Some? { samples[k] := Sample(found.value, EMPTY); }
    }
  }

  /** The search among the samples already shared finds the earliest sample with the same data. */
  lemma SourceIsEarliest(data: seq<Deformation>, samples: seq<Sample>, k: nat, found: Option<nat>)
    requires |samples| == |data| && k < |data| && samples[k] == Sample(k, data[k])
    requires forall i | 0 <= i < k :: SharedAt(data, samples[i], i)
    requires found.Some? ==>
      found.value < k && samples[found.value].source == found.value && samples[found.value].data == data[k]
    requires forall c | 0 <= c < (if found.Some? then found.value else k) :: samples[c].source != c || samples[c].data != data[k]
    ensures Earliest(data, k) == if found.Some? then found.value else k
  {
    var e := Earliest(data, k);
    EarliestQuotient(data, e, k);
    if e < k { assert SharedAt(data, samples[e], e); }
    if found.Some? { assert SharedAt(data, samples[found.value], found.value); }
  }

  /** With a static deformation the later pass changes nothing but repeats what is already shared. */
  method ShareStatic(samples: array<Sample>, first: Deformation)
    requires samples.Length > 1 && samples[0] == Sample(0, first)
    requires forall k | 0 < k < samples.Length :: samples[k] == Sample(0, EMPTY)
    modifies samples
    ensures samples[0] == Sample(0, first) && forall k | 0 < k < samples.Length :: samples[k] == Sample(0, EMPTY)
  {
    for k := 1 to samples.Length
      invariant samples[0] == Sample(0, first)
      invariant forall i | 0 < i < samples.Length :: samples[i] == Sample(0, EMPTY)
    {
      var found := FindSource(samples, k);
      if found.Some? { samples[k] := Sample(found.value, EMPTY); }
    }
  }

  /** The checked lookup of the sample that holds a sample's data. */
  function Resolve(samples: seq<Sample>, k: nat): Resolution {
    if k >= |samples| then Failed(InvalidSample)
    else
      var source := samples[k].source;
      if source > k || source >= |samples| || samples[source].source != source then Failed(InconsistentSharing)
      else Resolved(source, samples[source])
  }

  /** After sharing, every lookup succeeds, and gives the earliest sample together with the data that was imported. */
  lemma ResolveShared(data: seq<Deformation>, samples: seq<Sample>, k: nat)
    requires |samples| == |data| && forall i | 0 <= i < |data| :: SharedAt(data, samples[i], i)
    ensures Consistent(samples)
    ensures k < |data| ==> Resolve(samples, k) == Resolved(Earliest(data, k), Sample(Earliest(data, k), data[k]))
    ensures k >= |data| ==> Resolve(samples, k) == Failed(InvalidSample)
  {
    hide Earliest;
    forall i | 0 <= i < |samples| ensures samples[i].source <= i && samples[samples[i].source].source == samples[i].source {
      assert SharedAt(data, samples[i], i);
      var e := Earliest(data, i);
      EarliestQuotient(data, i, i);
      assert SharedAt(data, samples[e], e);
    }
    if k < |data| {
      var e := Earliest(data, k);
      EarliestQuotient(data, k, k);
      assert SharedAt(data, samples[k], k) && SharedAt(data, samples[e], e);
    }
  }

  /** Imports and shares. Whatever the flag, every sample resolves to a source that holds the data it needs. */
  method ImportAndShare(data: seq<Deformation>, isStatic: bool) returns (samples: array<Sample>)
    ensures fresh(samples) && samples.Length == |data| && Consistent(samples[..])
    ensures !isStatic ==> forall k | 0 <= k < |data| ::
      Resolve(samples[..], k) == Resolved(Earliest(data, k), Sample(Earliest(data, k), data[k]))
    ensures isStatic ==> forall k | 0 <= k < |data| :: Resolve(samples[..], k) == Resolved(0, Sample(0, data[0]))
  {
    samples := Import(data, isStatic);
    if isStatic && |data| > 1 {
      ShareStatic(samples, data[0]);
    } else {
      Share(samples, data);
      forall k | 0 <= k < |data|
        ensures Resolve(samples[..], k) == Resolved(Earliest(data, k), Sample(Earliest(data, k), data[k]))
      {
        ResolveShared(data, samples[..], k);
      }
      ResolveShared(data, samples[..], 0);
    }
  }
}
