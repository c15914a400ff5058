/** batchsplitter.go: deduplication by FID and splitting into batches. */
module BatchSplitter {
  type Fid = string
  type Platform = string

  /** The fields of a Device that dispatch looks at. */
  datatype Device = Device(fid: Fid, platform: Platform)

  function Fids(devices: seq<Device>): set<Fid> { set d | d in devices :: d.fid }

  ghost predicate DistinctFids(devices: seq<Device>) {
    forall i, j | 0 <= i < j < |devices| :: devices[i].fid != devices[j].fid
  }

  /** The first device of each FID, in the order they came. */
  function Dedup(devices: seq<Device>): seq<Device> {
    if devices == [] then []
    else
      var n := |devices| - 1;
      var kept := Dedup(devices[..n]);
      if devices[n].fid in Fids(kept) then kept else kept + [devices[n]]
  }

  lemma FidsAppend(devices: seq<Device>, d: Device)
    ensures Fids(devices + [d]) == Fids(devices) + {d.fid}
  {
    assert forall x :: x in devices + [d] <==> x in devices || x == d;
  }

  lemma FidsAt(devices: seq<Device>)
    ensures forall i | 0 <= i < |devices| :: devices[i].fid in Fids(devices)
  {
  }

  lemma AppendDistinct(devices: seq<Device>, d: Device)
    requires DistinctFids(devices) && d.fid !in Fids(devices)
    ensures DistinctFids(devices + [d])
  {
    FidsAt(devices);
  }

  /** Deduplication loses no FID and leaves no duplicate. */
  lemma {:induction false} DedupDistinct(devices: seq<Device>)
    ensures DistinctFids(Dedup(devices)) && Fids(Dedup(devices)) == Fids(devices)
    ensures devices != [] ==> Dedup(devices) != []
  {
    if devices != [] {
      var n := |devices| - 1;
      var kept := Dedup(devices[..n]);
      DedupDistinct(devices[..n]);
      assert devices == devices[..n] + [devices[n]];
      FidsAppend(devices[..n], devices[n]);
      FidsAppend(kept, devices[n]);
      FidsAt(kept);
      if devices[n].fid !in Fids(kept) { AppendDistinct(kept, devices[n]); }
    }
  }

  /** Deduplication keeps the first device of each FID and nothing else. */
  lemma {:induction false} DedupKeepsFirsts(devices: seq<Device>, j: nat)
    requires j < |devices|
    ensures devices[j].fid !in Fids(devices[..j]) ==> devices[j] in Dedup(devices)
    ensures devices[j] in Dedup(devices) ==> exists i ::
      0 <= i < |devices| && devices[i] == devices[j] && devices[i].fid !in Fids(devices[..i])
  {
    var n := |devices| - 1;
    var before, d := devices[..n], devices[n];
    DedupDistinct(before);
    if j < n {
      assert before[j] == devices[j] && before[..j] == devices[..j];
      DedupKeepsFirsts(before, j);
      if devices[j] in Dedup(before) {
        var i :| 0 <= i < |before| && before[i] == before[j] && before[i].fid !in Fids(before[..i]);
        assert before[..i] == devices[..i] && devices[i] == devices[j];
      }
    }
    if devices[j] in Dedup(devices) && devices[j] !in Dedup(before) {
      assert devices[j] == d && devices[n].fid !in Fids(devices[..n]);
    } else if j == n && d in Dedup(before) {
      var k := InDedup(before, d);
      DedupKeepsFirsts(before, k);
      var i :| 0 <= i < |before| && before[i] == before[k] && before[i].fid !in Fids(before[..i]);
      assert before[..i] == devices[..i] && devices[i] == devices[j];
    }
  }

  lemma {:induction false} InDedup(devices: seq<Device>, d: Device) returns (k: nat)
    requires d in Dedup(devices)
    ensures k < |devices| && devices[k] == d
  {
    var n := |devices| - 1;
    if d in Dedup(devices[..n]) { k := InDedup(devices[..n], d); } else { k := n; }
  }

  lemma {:induction false} DedupOfDistinct(devices: seq<Device>)
    requires DistinctFids(devices)
    ensures Dedup(devices) == devices
  {
    if devices != [] {
      var n := |devices| - 1;
      DedupOfDistinct(devices[..n]);
      assert devices == devices[..n] + [devices[n]];
    }
  }

  /** Strictly increasing positions, each of the first device of its FID. */
  ghost predicate Firsts(devices: seq<Device>, at: seq<nat>) {
    && (forall k | 0 <= k < |at| :: at[k] < |devices| && devices[at[k]].fid !in Fids(devices[..at[k]]))
    && (forall j, k | 0 <= j < k < |at| :: at[j] < at[k])
  }

  /** Deduplication keeps the order the devices came in. */
  lemma {:induction false} DedupKeepsOrder(devices: seq<Device>) returns (at: seq<nat>)
    ensures Firsts(devices, at) && |at| == |Dedup(devices)|
    ensures forall k | 0 <= k < |at| :: Dedup(devices)[k] == devices[at[k]]
  {
    at := [];
    if devices != [] {
      var n := |devices| - 1;
      at := DedupKeepsOrder(devices[..n]);
      DedupDistinct(devices[..n]);
      forall k | 0 <= k < |at|
        ensures devices[..at[k]] == devices[..n][..at[k]] && devices[at[k]] == devices[..n][at[k]]
      {}
      if devices[n].fid !in Fids(devices[..n]) { at := at + [n]; }
    }
  }

  method Deduplicate(devices: seq<Device>) returns (out: seq<Device>)
    ensures out == Dedup(devices)
    ensures DistinctFids(out) && Fids(out) == Fids(devices)
  {
    var seen: set<Fid> := {};
    out := [];
    for i := 0 to |devices|
      invariant out == Dedup(devices[..i]) && seen == Fids(out)
    {
      assert devices[..i + 1][..i] == devices[..i];
      if devices[i].fid in seen {
        continue;
      }
      seen := seen + {devices[i].fid};
      out := out + [devices[i]];
    }
    assert devices[..|devices|] == devices;
    DedupDistinct(devices);
  }

  function Flatten(batches: seq<seq<Device>>): seq<Device> {
    if batches == [] then [] else Flatten(batches[..|batches| - 1]) + batches[|batches| - 1]
  }

  /** Consecutive pieces of size devices, the last one possibly shorter; one piece when there is
      nothing to split. */
  function Chunks(devices: seq<Device>, size: int): seq<seq<Device>>
    decreases |devices|
  {
    if size <= 0 || |devices| <= size then [devices] else [devices[..size]] + Chunks(devices[size..], size)
  }

  method Split(devices: seq<Device>, maxBatchSize: int) returns (batches: seq<seq<Device>>)
    ensures batches == Chunks(devices, maxBatchSize)
  {
    if maxBatchSize <= 0 || |devices| == 0 {
      return [devices];
    }
    batches := [];
    var i := 0;
    while i < |devices|
      invariant 0 <= i
      invariant Chunks(devices, maxBatchSize) ==
        if i < |devices| then batches + Chunks(devices[i..], maxBatchSize) else batches
    {
      var end := i + maxBatchSize;
      if end > |devices| {
        end := |devices|;
      }
      assert end < |devices| ==>
        devices[i..][maxBatchSize..] == devices[end..] && devices[i..][..maxBatchSize] == devices[i..end];
      assert end == |devices| ==> devices[i..] == devices[i..end];
      batches := batches + [devices[i..end]];
      i := i + maxBatchSize;
    }
  }

  lemma FlattenAppend(batches: seq<seq<Device>>, batch: seq<Device>)
    ensures Flatten(batches + [batch]) == Flatten(batches) + batch
  {
    assert (batches + [batch])[..|batches|] == batches;
  }

  lemma {:induction false} FlattenPrepend(batch: seq<Device>, batches: seq<seq<Device>>)
    ensures Flatten([batch] + batches) == batch + Flatten(batches)
  {
    if batches == [] {
      FlattenAppend([], batch);
      assert [] + [batch] == [batch] + batches;
    } else {
      var n := |batches| - 1;
      FlattenPrepend(batch, batches[..n]);
      FlattenAppend([batch] + batches[..n], batches[n]);
      assert [batch] + batches == [batch] + batches[..n] + [batches[n]];
    }
  }

  /** Splitting changes neither what is sent nor the order. */
  lemma {:induction false} ChunksFlatten(devices: seq<Device>, size: int)
    ensures Flatten(Chunks(devices, size)) == devices
    decreases |devices|
  {
    if size <= 0 || |devices| <= size {
      FlattenAppend([], devices);
      assert [] + [devices] == [devices];
    } else {
      ChunksFlatten(devices[size..], size);
      FlattenPrepend(devices[..size], Chunks(devices[size..], size));
      assert devices == devices[..size] + devices[size..];
    }
  }

  /** No batch is larger than asked, and none is empty when there is something to send. */
  lemma {:induction false} ChunkSize(devices: seq<Device>, size: int, i: nat)
    requires i < |Chunks(devices, size)|
    ensures size > 0 ==> |Chunks(devices, size)[i]| <= size
    ensures devices != [] ==> Chunks(devices, size)[i] != []
    decreases |devices|
  {
    if size > 0 && |devices| > size && i > 0 {
      ChunkSize(devices[size..], size, i - 1);
      assert Chunks(devices, size)[i] == Chunks(devices[size..], size)[i - 1];
    }
  }

  /** Every batch but the last is full. */
  lemma {:induction false} ChunkFull(devices: seq<Device>, size: int, i: nat)
    requires i + 1 < |Chunks(devices, size)|
    ensures |Chunks(devices, size)[i]| == size
    decreases |devices|
  {
    if i > 0 {
      ChunkFull(devices[size..], size, i - 1);
      assert Chunks(devices, size)[i] == Chunks(devices[size..], size)[i - 1];
    }
  }

  lemma ChunksKeepAll(devices: seq<Device>, size: int)
    ensures Flatten(Chunks(devices, size)) == devices
    ensures size > 0 ==> forall i | 0 <= i < |Chunks(devices, size)| :: |Chunks(devices, size)[i]| <= size
    ensures devices != [] ==> forall i | 0 <= i < |Chunks(devices, size)| :: Chunks(devices, size)[i] != []
  {
    ChunksFlatten(devices, size);
    forall i | 0 <= i < |Chunks(devices, size)|
      ensures (size > 0 ==> |Chunks(devices, size)[i]| <= size) && (devices != [] ==> Chunks(devices, size)[i] != [])
    {
      ChunkSize(devices, size, i);
    }
  }
}
