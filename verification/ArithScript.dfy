/** Whole progressive scripts through the arithmetic coder: one file, scan after scan. */
module ArithScript {
  import opened BandEncoder
  import opened SequentialEncoder
  import opened ArithScan
  import opened ArithScanDecoder
  import opened ScanScript
  import opened ScriptDecoding
  import opened SimpleProgression
  import opened ScriptImage
  import opened Placement
  import opened Segments
  import opened Restarts

  /** How one scan of the script is coded: its set-up, the blocks it codes, the restart interval, the
      bytes between the previous scan's data and its own, and the code of the marker that ends it. */
  datatype Job = Job(g: Config, slots: Slots, interval: nat, lead: seq<int>, marker: int)

  /** The job codes scan x. */
  ghost predicate Codes(j: Job, x: Scan, image: Image, actual: seq<set<nat>>)
    requires |x.component_index| == MAX_COMPS_IN_SCAN
  {
    && IsConfig(j.g) && ArithRoutine(j.g, x) && 0 < j.marker < 0xFF && Serves(j.slots, x, image, actual)
    && j.slots.member == j.g.member && |j.slots.comps| == |j.g.dc|
  }

  lemma FetchedMcus(j: Job, x: Scan, image: Image, actual: seq<set<nat>>)
    requires |x.component_index| == MAX_COMPS_IN_SCAN && Codes(j, x, image, actual) && IsImage(image)
    ensures Placed(j.slots, image) && NaturalMcus(j.g, Fetch(image, j.slots))
  {
  }

  /** Every value of the scan can be coded. */
  ghost predicate Codable(j: Job, x: Scan, image: Image, actual: seq<set<nat>>, order: seq<nat>)
    requires |x.component_index| == MAX_COMPS_IN_SCAN && Codes(j, x, image, actual) && IsImage(image) && IsZigzag(order)
  {
    FetchedMcus(j, x, image, actual);
    AllFit(j.g, ZigzagMcus(j.g, Fetch(image, j.slots), order), j.interval)
  }

  /** The block found in a slot is what the scan's routine can work on. */
  lemma SlotWorkable(script: seq<Scan>, x: Scan, n: nat, j: Job, image: Image, actual: seq<set<nat>>, order: seq<nat>,
                     now: Image, m: nat, i: nat)
    requires Entries(script) && |x.component_index| == MAX_COMPS_IN_SCAN && StepsOk(script, n) && StepOk(script, x, n)
    requires IsZigzag(order) && KnownSoFar(script, image, actual, order, now) && Codes(j, x, image, actual)
    requires m < |j.slots.at| && i < |j.slots.member|
    ensures var c, b := j.slots.comps[j.slots.member[i]], j.slots.at[m][i];
      c < |now| && b < |now[c]| && Workable(j.g, Zigzag(now[c][b], order), Zigzag(image[c][b], order))
  {
    hide StepsOk, StepOk, Zigzag, Before, IsOrder, DecodedBy, InSlot;
    var c, b := j.slots.comps[j.slots.member[i]], j.slots.at[m][i];
    assert b < |image[c]|;
    if x.Ss > 0 {
      assert HasComponent(x, c) by { assert x.component_index[j.slots.member[i]] == c; }
      ArithScansFit(script, x, n, c, Zigzag(image[c][b], order), j.g);
    } else if x.Ah == 0 {
      FirstIsWorkable(j.g, Zigzag(now[c][b], order), Zigzag(image[c][b], order));
    }
  }

  lemma FirstIsWorkable(g: Config, z0: seq<int>, v: seq<int>)
    requires |z0| == |v| == 64 && g.kind.DcFirst? && g.ss == g.se == 0
    ensures Before(g, z0, v)
  {
  }

  /** What the scan's routine left in a slot. */
  ghost predicate SlotLeft(j: Job, image: Image, order: seq<nat>, now: Image, result: seq<seq<seq<int>>>, m: nat,
                           i: nat)
    requires IsZigzag(order) && Placed(j.slots, image) && Placed(j.slots, now) && IsImage(image) && IsImage(now)
    requires |result| == |j.slots.at| && m < |result| && |result[m]| == |j.slots.member| && i < |j.slots.member|
  {
    var c, b := j.slots.comps[j.slots.member[i]], j.slots.at[m][i];
    assert b < |image[c]| && b < |now[c]|;
    |result[m][i]| == 64 && Left(j.g, Zigzag(result[m][i], order), Zigzag(now[c][b], order), Zigzag(image[c][b], order))
  }

  ghost predicate AllLeft(j: Job, image: Image, order: seq<nat>, now: Image, result: seq<seq<seq<int>>>) {
    && IsZigzag(order) && Placed(j.slots, image) && Placed(j.slots, now) && IsImage(image) && IsImage(now)
    && |result| == |j.slots.at| && (forall m :: 0 <= m < |result| ==> |result[m]| == |j.slots.member|)
    && forall m, i :: 0 <= m < |result| && 0 <= i < |j.slots.member| ==> SlotLeft(j, image, order, now, result, m, i)
  }

  /** What is left in a slot is known one scan further. */
  lemma LeftIsKnown(script: seq<Scan>, x: Scan, n: nat, j: Job, image: Image, actual: seq<set<nat>>, order: seq<nat>,
                    now: Image, result: seq<seq<seq<int>>>)
    requires Entries(script) && |x.component_index| == MAX_COMPS_IN_SCAN && StepsOk(script, n) && StepOk(script, x, n)
    requires KnownSoFar(script, image, actual, order, now) && Codes(j, x, image, actual) && Entries(script + [x])
    requires AllLeft(j, image, order, now, result)
    ensures AllKnown(script + [x], j.slots, image, actual, order, result)
  {
    hide StepsOk, StepOk, Zigzag, Before, ArithScanDecoder.After, IsOrder, DecodedBy, InSlot;
    forall m, i | 0 <= m < |result| && 0 <= i < |j.slots.member|
      ensures SlotKnown(script + [x], j.slots, image, actual, order, result, m, i)
    {
      var c, b := j.slots.comps[j.slots.member[i]], j.slots.at[m][i];
      assert b < |image[c]|;
      assert SlotLeft(j, image, order, now, result, m, i);
      if b in actual[c] {
        assert HasComponent(x, c) by { assert x.component_index[j.slots.member[i]] == c; }
        ArithScansFit(script, x, n, c, Zigzag(image[c][b], order), j.g);
      }
    }
  }

  // Files ---------------------------------------------------------------------------------------

  /** Every scan of an acceptable script has its job, and all its values can be coded. */
  ghost predicate AreJobs(jobs: seq<Job>, script: seq<Scan>, n: nat, image: Image, actual: seq<set<nat>>,
                          order: seq<nat>) {
    && Entries(script) && StepsOk(script, n) && IsImage(image) && IsZigzag(order) && |jobs| == |script|
    && forall k :: 0 <= k < |jobs| ==>
         Codes(jobs[k], script[k], image, actual) && Codable(jobs[k], script[k], image, actual, order)
  }

  /** The scan's data, with the marker that ends it, starts there in the file. */
  ghost predicate InFile(j: Job, image: Image, order: seq<nat>, file: seq<int>, start: nat, codes: seq<seq<int>>) {
    && IsConfig(j.g) && Placed(j.slots, image) && NaturalMcus(j.g, Fetch(image, j.slots)) && IsZigzag(order)
    && var segs := SegmentsOf(ZigzagMcus(j.g, Fetch(image, j.slots), order), j.interval);
       && AreSegments(j.g, segs) && |codes| > 0 && AllCoded(j.g, segs, codes) && start <= |file|
       && ScanBytes(file[..start], codes[..|codes| - 1], codes[|codes| - 1]) + [0xFF, j.marker] <= file
  }

  /** Bytes that follow do not matter. */
  lemma StillInFile(j: Job, image: Image, order: seq<nat>, file: seq<int>, more: seq<int>, start: nat,
                    codes: seq<seq<int>>)
    requires InFile(j, image, order, file, start, codes)
    ensures InFile(j, image, order, file + more, start, codes)
  {
    hide IsConfig, Placed, NaturalMcus, IsOrder, SplitBy, AllCoded, ScanBytes;
    assert (file + more)[..start] == file[..start];
  }

  lemma JobIs(jobs: seq<Job>, script: seq<Scan>, n: nat, image: Image, actual: seq<set<nat>>, order: seq<nat>, k: nat)
    requires AreJobs(jobs, script, n, image, actual, order) && k < |jobs|
    ensures IsConfig(jobs[k].g) && Placed(jobs[k].slots, image) && IsZigzag(order) && 0 < jobs[k].marker < 0xFF
    ensures NaturalMcus(jobs[k].g, Fetch(image, jobs[k].slots))
    ensures AllFit(jobs[k].g, ZigzagMcus(jobs[k].g, Fetch(image, jobs[k].slots), order), jobs[k].interval)
  {
    hide AllFit, IsConfig, StepsOk;
    FetchedMcus(jobs[k], script[k], image, actual);
  }

  /** Codes the scans of the script one after the other. */
  method EncodeScript(jobs: seq<Job>, image: Image, order: seq<nat>, ghost script: seq<Scan>, ghost n: nat,
                      ghost actual: seq<set<nat>>)
    returns (file: seq<int>, starts: seq<nat>, ghost codes: seq<seq<seq<int>>>)
    requires AreJobs(jobs, script, n, image, actual, order)
    ensures |starts| == |codes| == |jobs|
    ensures forall k :: 0 <= k < |jobs| ==> InFile(jobs[k], image, order, file, starts[k], codes[k])
  {
    hide AreJobs, InFile, IsOrder, Placed, IsConfig, AllFit;
    file, starts, codes := [], [], [];
    for k := 0 to |jobs|
      invariant |starts| == |codes| == k
      invariant forall i :: 0 <= i < k ==> InFile(jobs[i], image, order, file, starts[i], codes[i])
    {
      JobIs(jobs, script, n, image, actual, order, k);
      var next, start;
      ghost var cs;
      next, start, cs := EncodeOne(jobs[k], image, order, file);
      ghost var more := next[|file|..];
      forall i | 0 <= i < k ensures InFile(jobs[i], image, order, next, starts[i], codes[i]) {
        StillInFile(jobs[i], image, order, file, more, starts[i], codes[i]);
      }
      file, starts, codes := next, starts + [start], codes + [cs];
    }
  }

  method EncodeOne(j: Job, image: Image, order: seq<nat>, file: seq<int>)
    returns (next: seq<int>, start: nat, ghost codes: seq<seq<int>>)
    requires IsConfig(j.g) && Placed(j.slots, image) && NaturalMcus(j.g, Fetch(image, j.slots)) && IsZigzag(order)
    ensures |file| <= |next| && next == file + next[|file|..] && InFile(j, image, order, next, start, codes)
  {
    hide IsConfig, Placed, NaturalMcus, IsOrder, SplitBy, AllCoded, RestartBytes;
    var dest := file + j.lead;
    var out;
    out, codes := EncodeScan(Fetch(image, j.slots), j.g, order, j.interval, dest);
    start := |dest|;
    next := out + [0xFF, j.marker];
    assert dest <= out;
    assert next[..start] == dest;
  }

  /** Decodes the scans of the script one after the other, from cleared blocks. */
  method DecodeScript(jobs: seq<Job>, sizes: seq<nat>, order: seq<nat>, file: seq<int>, starts: seq<nat>,
                      ghost codes: seq<seq<seq<int>>>, ghost image: Image, ghost script: seq<Scan>, ghost n: nat,
                      ghost actual: seq<set<nat>>)
    returns (ok: bool, now: Image)
    requires AreJobs(jobs, script, n, image, actual, order) && |starts| == |codes| == |jobs| && |actual| == |image|
    requires |sizes| == |image| && forall c :: 0 <= c < |sizes| ==> sizes[c] == |image[c]|
    requires forall k :: 0 <= k < |jobs| ==> InFile(jobs[k], image, order, file, starts[k], codes[k])
    ensures Entries(script) && ok && KnownSoFar(script, image, actual, order, now)
  {
    hide InFile, IsOrder, KnownSoFar, StepsOk, Codes, Codable;
    ok, now := true, seq(|sizes|, c requires 0 <= c < |sizes| => seq(sizes[c], _ => seq(64, _ => 0)));
    NothingKnown(image, actual, order, now);
    assert script[..0] == [];
    for k := 0 to |jobs|
      invariant ok && KnownSoFar(script[..k], image, actual, order, now)
    {
      ok, now := DecodeOne(jobs[k], now, order, file, starts[k], codes[k], image, script, n, actual, k);
      if !ok {
        return;
      }
    }
    assert script[..|jobs|] == script;
  }

  /** One scan. */
  method DecodeOne(j: Job, before: Image, order: seq<nat>, file: seq<int>, start: nat, ghost codes: seq<seq<int>>,
                   ghost image: Image, ghost script: seq<Scan>, ghost n: nat, ghost actual: seq<set<nat>>,
                   ghost k: nat)
    returns (ok: bool, after: Image)
    requires Entries(script) && StepsOk(script, n) && k < |script| && IsImage(image) && IsZigzag(order)
    requires KnownSoFar(script[..k], image, actual, order, before) && Codes(j, script[k], image, actual)
    requires Codable(j, script[k], image, actual, order) && InFile(j, image, order, file, start, codes)
    ensures ok && KnownSoFar(script[..k + 1], image, actual, order, after)
  {
    hide StepsOk, StepOk, IsConfig, SplitBy, AllCoded, IsOrder, AllFit, GoodScan, Expected, ArithScanDecoder.Decoded;
    hide Stored, AllLeft;
    hide ArithRoutine, IsImage, Placed, Zigzag, DecodedBy;
    ghost var x := script[k];
    StepsPrefix(script, n, k);
    FetchedMcus(j, x, image, actual);
    ghost var vs := ZigzagMcus(j.g, Fetch(image, j.slots), order);
    FileHasScan(j, x, image, actual, order, file, start, codes);
    AllExpected(script[..k], x, n, j, image, actual, order, before);
    var result;
    ok, result := DecodeScan(file, start, j.g, order, j.interval, Fetch(before, j.slots), codes, vs);
    WhatIsLeft(j, image, order, before, result);
    after := Store(before, j.slots, result);
    LeftIsKnown(script[..k], x, n, j, image, actual, order, before, result);
    OneScanFurther(script[..k], x, j.slots, image, actual, order, before, result, after);
  }

  lemma FileHasScan(j: Job, x: Scan, image: Image, actual: seq<set<nat>>, order: seq<nat>, file: seq<int>, start: nat,
                    codes: seq<seq<int>>)
    requires |x.component_index| == MAX_COMPS_IN_SCAN && Codes(j, x, image, actual) && IsImage(image) && IsZigzag(order)
    requires Codable(j, x, image, actual, order) && InFile(j, image, order, file, start, codes)
    ensures NaturalMcus(j.g, Fetch(image, j.slots))
    ensures GoodScan(j.g, file, start, codes, ZigzagMcus(j.g, Fetch(image, j.slots), order), j.interval)
  {
    hide IsConfig, SplitBy, AllCoded, IsOrder, ScanBytes, SegmentFits, ScanAt, ZigzagMcu, IsImage, Placed;
    FetchedMcus(j, x, image, actual);
    var vs := ZigzagMcus(j.g, Fetch(image, j.slots), order);
    var dest := file[..start];
    var all := ScanBytes(dest, codes[..|codes| - 1], codes[|codes| - 1]) + [0xFF, j.marker];
    CodesAreBytes(j.g, SegmentsOf(vs, j.interval), codes);
    assert file == all + file[|all|..];
    ScanStarts(start, codes, file, dest, j.marker, file[|all|..]);
  }

  lemma AllExpected(script: seq<Scan>, x: Scan, n: nat, j: Job, image: Image, actual: seq<set<nat>>, order: seq<nat>,
                    now: Image)
    requires Entries(script) && |x.component_index| == MAX_COMPS_IN_SCAN && StepsOk(script, n) && StepOk(script, x, n)
    requires KnownSoFar(script, image, actual, order, now) && Codes(j, x, image, actual) && IsZigzag(order)
    ensures Placed(j.slots, now) && NaturalMcus(j.g, Fetch(image, j.slots))
    ensures Expected(j.g, Fetch(now, j.slots), ZigzagMcus(j.g, Fetch(image, j.slots), order), order)
  {
    hide StepsOk, StepOk, Zigzag, IsOrder, DecodedBy, InSlot, Workable, Left;
    FetchedMcus(j, x, image, actual);
    var coefs, vs := Fetch(now, j.slots), ZigzagMcus(j.g, Fetch(image, j.slots), order);
    forall m | 0 <= m < |coefs| ensures McuState(j.g, coefs[m], coefs[m], order, vs[m], 0) {
      forall i | 0 <= i < |coefs[m]|
        ensures |coefs[m][i]| == |vs[m][i]| == 64 && Workable(j.g, Zigzag(coefs[m][i], order), vs[m][i])
      {
        SlotWorkable(script, x, n, j, image, actual, order, now, m, i);
      }
    }
  }

  lemma WhatIsLeft(j: Job, image: Image, order: seq<nat>, now: Image, result: seq<seq<seq<int>>>)
    requires IsImage(image) && IsImage(now) && Placed(j.slots, image) && Placed(j.slots, now) && IsZigzag(order)
    requires IsConfig(j.g) && NaturalMcus(j.g, Fetch(image, j.slots)) && |result| == |j.slots.at|
    requires ArithScanDecoder.Decoded(j.g, result, Fetch(now, j.slots), ZigzagMcus(j.g, Fetch(image, j.slots), order),
                                      order)
    ensures AllLeft(j, image, order, now, result) && forall m :: 0 <= m < |result| ==> |result[m]| == |j.slots.member|
    ensures forall m, i :: 0 <= m < |result| && 0 <= i < |j.slots.member| ==> |result[m][i]| == 64
  {
    hide Zigzag, IsOrder, Workable, Left, IsConfig, IsImage;
    var coefs, vs := Fetch(now, j.slots), ZigzagMcus(j.g, Fetch(image, j.slots), order);
    forall m | 0 <= m < |result|
      ensures |result[m]| == |j.slots.member|
      ensures forall i :: 0 <= i < |j.slots.member| ==> SlotLeft(j, image, order, now, result, m, i)
    {
      assert McuState(j.g, result[m], coefs[m], order, vs[m], |vs[m]|);
      hide Placed;
    }
    assert forall m, i :: 0 <= m < |result| && 0 <= i < |j.slots.member| ==>
        SlotLeft(j, image, order, now, result, m, i);
  }

  /** The round trip of a whole script: whatever an acceptable script, the layout of its scans, restart
      intervals, bytes between the scans and values that can be coded, decoding the file scan after scan
      from cleared blocks leaves in every real block exactly what the script has sent of it. */
  method CodeAndDecodeScript(jobs: seq<Job>, image: Image, order: seq<nat>, ghost script: seq<Scan>, ghost n: nat,
                             ghost actual: seq<set<nat>>)
    returns (ok: bool, now: Image)
    requires AreJobs(jobs, script, n, image, actual, order) && |actual| == |image|
    ensures ok && KnownSoFar(script, image, actual, order, now)
    ensures Exact(script, |image|) ==> SameBlocks(image, now, actual, order)
  {
    hide AreJobs, InFile, KnownSoFar, Exact, SameBlocks;
    var file, starts;
    ghost var codes;
    file, starts, codes := EncodeScript(jobs, image, order, script, n, actual);
    var sizes := seq(|image|, c requires 0 <= c < |image| => |image[c]|);
    ok, now := DecodeScript(jobs, sizes, order, file, starts, codes, image, script, n, actual);
    if Exact(script, |image|) {
      ExactIsWhole(script, image, actual, order, now);
    }
  }
}
