/** fat32_read_chain and fat32_write_chain: a cluster chain read and written as a byte sequence. */
module ChainIO {
  import opened Arithmetic
  import opened Blocks
  import opened SectorCache
  import opened FatTable
  import opened VolumeState
  import opened Chains
  import opened FileBytes
  import opened Fat32
  import opened WriteOrder

  /** Clusters of a mounted volume all have the volume's cluster size. */
  lemma MountedUniform(g: Geometry, w: World)
    requires Mounted(g, w)
    ensures Uniform(Seen(g, w), g.BytesPerCluster())
    ensures |Seen(g, w).fat1| == g.totalClusters + 2 <= FAT32_BAD
  {
    forall c | 2 <= c < g.totalClusters + 2 ensures |Seen(g, w).data[c]| == g.BytesPerCluster() {
      ClusterBounds(g, w, c);
    }
  }

  /** A free cluster allocated and filled with zeros. */
  method TakeZeroed(vol: Volume) returns (r: nat)
    requires vol.Valid()
    modifies vol`freeClusters, vol`nextFree, vol.cache.slots, vol.cache.table
    ensures vol.Valid() && Step(vol.g, old(vol.Now()), vol.Now())
    ensures r != FAT32_BAD ==>
      && vol.g.InRange(r) && Entry(Seen(vol.g, old(vol.Now())).fat1, r) == FAT32_FREE
      && Seen(vol.g, vol.Now()) == Taken(Seen(vol.g, old(vol.Now())), r, vol.g.BytesPerCluster())
      && (old(vol.Exact()) ==> vol.Exact())
      && KeepsClean(vol.g, old(vol.Now()), vol.Now(), {r})
    ensures vol.cache.table.failures == old(vol.cache.table.failures) ==>
      && (r == FAT32_BAD <==> FreeCount(Seen(vol.g, old(vol.Now())).fat1) == 0)
      && (r == FAT32_BAD ==> Quiet(old(vol.Now()), vol.Now()))
      && (old(vol.Exact()) ==> vol.Exact())
    ensures old(Ordered(vol.g, vol.Now())) ==>
      CrashSafe(vol.g, old(vol.Now()), vol.Now()) && (r != FAT32_BAD ==> Ordered(vol.g, vol.Now()))
  {
    hide ReservedKept, Recorded, Mounted, Coherent, ElsewhereSame, Fat1Within, KeepsClean, Abs, View, CountFree, FatWords, Merge28,
         Tracked, NoDangling, CrashSafe, ScanFree;
    var g := vol.g;
    ghost var w0 := vol.Now();
    VolumeBounds(g, w0);
    ghost var ordered := Ordered(g, w0);
    r := vol.AllocCluster();
    ghost var w1 := vol.Now();
    if ordered {
      AllocIsCrashSafe(g, w0, w1, r);
    }
    StepBounds(g, w0, w1);
    if r == FAT32_BAD {
      return;
    }
    var ok := vol.WriteCluster(r, ZeroBytes(g.BytesPerCluster()));
    ghost var w2 := vol.Now();
    if ordered {
      DataIsCrashSafe(g, w1, w2);
      CrashSafeTransitive(g, w0, w1, w2);
    }
    KeepsCleanTransitive(g, w0, w1, w2, {}, {r}, {r});
    StepTransitive(g, w0, w1, w2);
    StepBounds(g, w1, w2);
    if !ok {
      r := FAT32_BAD;
    }
  }

  lemma AllocIsCrashSafe(g: Geometry, w0: World, w1: World, r: nat)
    requires Step(g, w0, w1) && Tracked(g, w0, w1) && Ordered(g, w0)
    requires r != FAT32_BAD ==> g.InRange(r) && Seen(g, w1) == SetEntry(Seen(g, w0), r, FAT32_EOC)
    requires r != FAT32_BAD ==> Stored(g, w1) == Seen(g, w1)
    requires r == FAT32_BAD ==> MaybeMarked(Seen(g, w0), Seen(g, w1))
    ensures CrashSafe(g, w0, w1) && (r != FAT32_BAD ==> Ordered(g, w1))
  {
    hide Mounted, Coherent, ElsewhereSame, Fat1Within, KeepsClean, Abs, View, SameShape, FatWords, Merge28,
         NoDangling, CrashSafe;
    VolumeBounds(g, w0);
    StepBounds(g, w0, w1);
    var v0, v1 := Seen(g, w0), Seen(g, w1);
    if v1.fat1 == v0.fat1 {
      OneEntryAtATime(g, w0, w1, v0.fat1, v1.fat1, 0);
    } else if r == FAT32_BAD {
      var c :| 2 <= c < |v0.fat1| && (v1 == SetFirst(v0, c, FAT32_EOC) || v1 == SetEntry(v0, c, FAT32_EOC));
      TakeKeepsLinks(v0, c);
      SetFirstFat1(v0, c, FAT32_EOC);
      OneEntryAtATime(g, w0, w1, v0.fat1, v1.fat1, c);
    } else {
      TakeKeepsLinks(v0, r);
      OneEntryAtATime(g, w0, w1, v0.fat1, v1.fat1, r);
    }
  }

  lemma SetFirstFat1(v: FatImage, c: nat, value: nat)
    requires c < |v.fat1| == |v.fat2|
    ensures SetFirst(v, c, value).fat1 == SetEntry(v, c, value).fat1
  {
  }

  lemma DataIsCrashSafe(g: Geometry, w0: World, w1: World)
    requires Step(g, w0, w1) && Ordered(g, w0) && Seen(g, w1).fat1 == Seen(g, w0).fat1
    requires Fat1Within(g, w0, w1, Stored(g, w0).fat1, Seen(g, w0).fat1)
    ensures CrashSafe(g, w0, w1) && Ordered(g, w1)
  {
    OneEntryAtATime(g, w0, w1, Seen(g, w0).fat1, Seen(g, w0).fat1, 0);
  }

  /** fat32_write_fat and fat32_write_barrier, as they link a cluster behind `cur`. */
  method LinkBehind(vol: Volume, cur: nat, added: nat) returns (ok: bool)
    requires vol.Valid() && vol.g.InRange(added)
    modifies vol.cache.slots, vol.cache.table
    ensures vol.Valid() && Step(vol.g, old(vol.Now()), vol.Now())
    ensures ok ==> vol.g.InRange(cur) && Seen(vol.g, vol.Now()) == SetEntry(Seen(vol.g, old(vol.Now())), cur, added)
    ensures ok ==> Clean(vol.Now(), vol.g.dev) && Stored(vol.g, vol.Now()) == Seen(vol.g, vol.Now())
    ensures vol.g.InRange(cur) ==> (ok <==> vol.cache.table.failures == old(vol.cache.table.failures))
    ensures old(Ordered(vol.g, vol.Now())) && Entry(Seen(vol.g, old(vol.Now())).fat1, added) != FAT32_FREE ==>
      CrashSafe(vol.g, old(vol.Now()), vol.Now()) && (ok ==> Ordered(vol.g, vol.Now()))
  {
    hide ReservedKept, Recorded, Mounted, Coherent, ElsewhereSame, Fat1Within, KeepsClean, Abs, View, FatWords, Merge28, Tracked,
         NoDangling, CrashSafe;
    var g := vol.g;
    ghost var w0 := vol.Now();
    VolumeBounds(g, w0);
    ok := vol.WriteFat(cur, added);
    ghost var w1 := vol.Now();
    if ok {
      ok := vol.WriteBarrier();
      StepTransitive(g, w0, w1, vol.Now());
      TrackedThenFlushed(g, w0, w1, vol.Now());
    }
    StepBounds(g, w0, vol.Now());
    if Ordered(g, w0) && Entry(Seen(g, w0).fat1, added) != FAT32_FREE {
      LinkIsCrashSafe(g, w0, vol.Now(), cur, added, ok);
    }
  }

  lemma LinkIsCrashSafe(g: Geometry, w0: World, w1: World, cur: nat, added: nat, ok: bool)
    requires Step(g, w0, w1) && Tracked(g, w0, w1) && Ordered(g, w0)
    requires g.InRange(added) && Entry(Seen(g, w0).fat1, added) != FAT32_FREE
    requires Seen(g, w1).fat1 == Seen(g, w0).fat1
      || (g.InRange(cur) && Seen(g, w1).fat1 == SetEntry(Seen(g, w0), cur, added).fat1)
    requires ok ==> Stored(g, w1) == Seen(g, w1)
    ensures CrashSafe(g, w0, w1) && (ok ==> Ordered(g, w1))
  {
    hide Mounted, Coherent, ElsewhereSame, Fat1Within, KeepsClean, Abs, View, SameShape, FatWords, Merge28,
         NoDangling, CrashSafe;
    VolumeBounds(g, w0);
    StepBounds(g, w0, w1);
    var v0, v1 := Seen(g, w0), Seen(g, w1);
    if v1.fat1 == v0.fat1 {
      OneEntryAtATime(g, w0, w1, v0.fat1, v1.fat1, 0);
    } else {
      LinkKeepsLinks(v0, cur, added);
      OneEntryAtATime(g, w0, w1, v0.fat1, v1.fat1, cur);
    }
  }

  /** One extension as fat32_write_chain and fat32_dir_create_entry perform it: take a zeroed
      cluster, then link it behind `cur`, then flush. */
  method Extend(vol: Volume, cur: nat) returns (ok: bool, added: nat)
    requires vol.Valid()
    modifies vol`freeClusters, vol`nextFree, vol.cache.slots, vol.cache.table
    ensures vol.Valid() && Step(vol.g, old(vol.Now()), vol.Now())
    ensures ok ==>
      && vol.g.InRange(cur) && vol.g.InRange(added) && Entry(Seen(vol.g, old(vol.Now())).fat1, added) == FAT32_FREE
      && Seen(vol.g, vol.Now()) == Linked(Seen(vol.g, old(vol.Now())), cur, added, vol.g.BytesPerCluster())
      && Clean(vol.Now(), vol.g.dev) && Stored(vol.g, vol.Now()) == Seen(vol.g, vol.Now())
    ensures vol.g.InRange(cur) && vol.cache.table.failures == old(vol.cache.table.failures) ==>
      && (ok <==> FreeCount(Seen(vol.g, old(vol.Now())).fat1) != 0)
      && (!ok ==> Quiet(old(vol.Now()), vol.Now()) && Seen(vol.g, vol.Now()) == Seen(vol.g, old(vol.Now())))
      && (!ok && old(vol.Exact()) ==> vol.Exact())
    ensures old(Ordered(vol.g, vol.Now())) ==>
      CrashSafe(vol.g, old(vol.Now()), vol.Now()) && (ok ==> Ordered(vol.g, vol.Now()))
    ensures ok && old(vol.Exact()) && Entry(Seen(vol.g, old(vol.Now())).fat1, cur) != FAT32_FREE ==> vol.Exact()
  {
    hide Mounted, Coherent, ElsewhereSame, Fat1Within, KeepsClean, Abs, View, CountFree, FatWords, Merge28,
         Tracked, NoDangling, CrashSafe;
    var g := vol.g;
    ghost var w0 := vol.Now();
    VolumeBounds(g, w0);
    ghost var ordered := Ordered(g, w0);
    added := TakeZeroed(vol);
    ghost var w1 := vol.Now();
    StepBounds(g, w0, w1);
    if added == FAT32_BAD {
      if w1.failures == w0.failures {
        QuietVolume(g, w0, w1);
      }
      return false, added;
    }
    ok := LinkBehind(vol, cur, added);
    ghost var w2 := vol.Now();
    if ordered {
      CrashSafeTransitive(g, w0, w1, w2);
    }
    StepTransitive(g, w0, w1, w2);
    StepBounds(g, w1, w2);
    if ok && Entry(Seen(g, w0).fat1, cur) != FAT32_FREE {
      RelinkCounts(Seen(g, w1), cur, added);
    }
  }

  lemma RelinkCounts(v: FatImage, cur: nat, added: nat)
    requires |v.fat1| == |v.fat2| <= FAT32_BAD && 2 <= cur < |v.fat1| && 2 <= added < |v.fat1|
    requires Entry(v.fat1, cur) != FAT32_FREE
    ensures FreeCount(SetEntry(v, cur, added).fat1) == FreeCount(v.fat1)
  {
    CountAfterSet(v.fat1, |v.fat1|, cur, Merge28(v.fat1[cur], added));
  }

  /** What a chain write is measured against: the volume and the chain before it, the offset, and
      the bytes written so far. */
  datatype Job = Job(v0: FatImage, ch0: seq<nat>, m: nat, off: nat, piece: seq<Byte>)

  /** The job's bytes are in the chain `ch` that starts at `start`. */
  ghost predicate OnCourse(j: Job, v: FatImage, ch: seq<nat>, start: nat) {
    && Rewritten(j.v0, v, j.ch0, ch, j.m, j.off, j.piece)
    && Covers(ch, j.m, j.off, j.piece)
    && |ch| > 0 && ch[0] == start
  }

  /** All clusters the job's chain can ever have: its own and the free ones. */
  function Room(j: Job): nat { |j.ch0| + FreeCount(j.v0.fat1) }

  lemma OnCourseBounds(j: Job, v: FatImage, ch: seq<nat>, start: nat)
    requires OnCourse(j, v, ch, start)
    ensures IsChain(v.fat1, ch) && Uniform(v, j.m)
    ensures |ch| + FreeCount(v.fat1) == Room(j)
  {
  }

  lemma OnCourseExtend(j: Job, v: FatImage, ch: seq<nat>, start: nat, added: nat)
    requires OnCourse(j, v, ch, start)
    requires 2 <= added < |v.fat1| <= FAT32_BAD && Entry(v.fat1, added) == FAT32_FREE
    ensures IsChain(v.fat1, ch) && Uniform(v, j.m)
    ensures OnCourse(j, Linked(v, ch[|ch| - 1], added, j.m), ch + [added], start)
  {
    RewrittenExtend(j.v0, v, j.ch0, ch, j.m, j.off, j.piece, added);
  }

  /** The chain was cut: some link of it leads elsewhere, and what it led to is allocated but lost. */
  ghost predicate Torn(v: FatImage, ch: seq<nat>) {
    exists i: nat :: TornAt(v, ch, i)
  }

  ghost predicate TornAt(v: FatImage, ch: seq<nat>, i: nat) {
    && i + 1 < |ch| && ch[i] < |v.fat1| && ch[i + 1] < |v.fat1|
    && Entry(v.fat1, ch[i]) != ch[i + 1] && Entry(v.fat1, ch[i + 1]) != FAT32_FREE
  }

  /** A torn chain is a chain no more. */
  lemma TornIsNoChain(v: FatImage, ch: seq<nat>)
    requires Torn(v, ch)
    ensures !IsChain(v.fat1, ch)
  {
    var i: nat :| TornAt(v, ch, i);
    if IsChain(v.fat1, ch) {
      ChainIsWhole(v, ch, i);
    }
  }

  lemma ChainIsWhole(v: FatImage, ch: seq<nat>, i: nat)
    requires IsChain(v.fat1, ch) && i + 1 < |ch|
    ensures !TornAt(v, ch, i)
  {
    ChainStep(v.fat1, ch, i);
  }

  /** No extension mends it: what is linked in was free. */
  lemma TornStays(v: FatImage, ch: seq<nat>, cur: nat, added: nat, m: nat)
    requires Torn(v, ch) && |v.fat1| == |v.fat2| == |v.data| <= FAT32_BAD && 2 <= cur < |v.fat1| && 2 <= added < |v.fat1|
    requires Entry(v.fat1, added) == FAT32_FREE
    ensures Torn(Linked(v, cur, added, m), ch)
  {
    var i: nat :| TornAt(v, ch, i);
    var v1 := Linked(v, cur, added, m);
    LinkedEntries(v, cur, added, m);
    assert TornAt(v1, ch, i);
  }

  lemma LinkedEntries(v: FatImage, cur: nat, added: nat, m: nat)
    requires |v.fat1| == |v.fat2| == |v.data| <= FAT32_BAD && 2 <= cur < |v.fat1| && 2 <= added < |v.fat1|
    ensures var v1 := Linked(v, cur, added, m);
      && |v1.fat1| == |v.fat1| && Entry(v1.fat1, cur) == added
      && (added != cur ==> Entry(v1.fat1, added) == FAT32_EOC)
      && (forall c :: 0 <= c < |v.fat1| && c != cur && c != added ==> v1.fat1[c] == v.fat1[c])
  {
  }

  /** Linking a new cluster behind one that is not the last cuts the chain. */
  lemma LinkTears(v: FatImage, ch: seq<nat>, idx: nat, added: nat, m: nat)
    requires IsChain(v.fat1, ch) && idx + 1 < |ch| && |v.fat1| == |v.fat2| == |v.data| <= FAT32_BAD
    requires 2 <= added < |v.fat1| && Entry(v.fat1, added) == FAT32_FREE
    ensures ch[idx] < |v.fat1| && Torn(Linked(v, ch[idx], added, m), ch)
  {
    ChainStep(v.fat1, ch, idx);
    ChainStep(v.fat1, ch, idx + 1);
    LinkedEntries(v, ch[idx], added, m);
    assert TornAt(Linked(v, ch[idx], added, m), ch, idx);
  }

  /** Where a write stands: on course, unless a link of its chain was misread and the chain cut there. */
  ghost predicate Stands(j: Job, v: FatImage, ch: seq<nat>, start: nat, torn: bool) {
    if torn then Torn(v, ch) else OnCourse(j, v, ch, start)
  }

  /** fat32_read_fat as a step of the walk: nothing seen changes, and a failing read tells of a bad
      cluster. */
  method ReadLink(vol: Volume, current: nat) returns (next: nat)
    requires vol.Valid()
    modifies vol.cache.slots, vol.cache.table
    ensures vol.Valid() && Step(vol.g, old(vol.Now()), vol.Now()) && KeepsClean(vol.g, old(vol.Now()), vol.Now(), {})
    ensures Seen(vol.g, vol.Now()) == Seen(vol.g, old(vol.Now()))
    ensures old(Ordered(vol.g, vol.Now())) ==> CrashSafe(vol.g, old(vol.Now()), vol.Now()) && Ordered(vol.g, vol.Now())
    ensures vol.g.InRange(current) ==>
      next == if vol.cache.table.failures == old(vol.cache.table.failures) then Entry(Seen(vol.g, old(vol.Now())).fat1, current) else FAT32_BAD
  {
    hide Mounted, Coherent, ElsewhereSame, Fat1Within, KeepsClean, Abs, View, CountFree, FatWords, Merge28,
         Tracked, NoDangling, CrashSafe, Step, SameShape;
    ghost var w0 := vol.Now();
    VolumeBounds(vol.g, w0);
    next := vol.ReadFat(current);
    ghost var w1 := vol.Now();
    VolumeBounds(vol.g, w1);
    QuietVolume(vol.g, w0, w1);
    QuietIsCrashSafe(vol.g, w0, w1);
  }

  /** The extension of the walk, wherever it takes the chain to end. */
  method ExtendHere(vol: Volume, current: nat, ghost j: Job, ghost ch: seq<nat>, ghost start: nat, ghost torn0: bool, ghost idx: nat)
    returns (ok: bool, added: nat, ghost ch1: seq<nat>, ghost torn: bool)
    requires vol.Valid()
    modifies vol`freeClusters, vol`nextFree, vol.cache.slots, vol.cache.table
    ensures vol.Valid() && Step(vol.g, old(vol.Now()), vol.Now())
    ensures ok ==> KeepsClean(vol.g, old(vol.Now()), vol.Now(), {})
    ensures old(Ordered(vol.g, vol.Now())) ==>
      CrashSafe(vol.g, old(vol.Now()), vol.Now()) && (ok ==> Ordered(vol.g, vol.Now()))
    ensures ch <= ch1 && (torn0 ==> torn)
    ensures torn && !torn0 ==>
      OnCourse(j, Seen(vol.g, old(vol.Now())), ch, start) && idx + 1 < |ch| && current == ch[idx]
    ensures j.m == vol.g.BytesPerCluster() && Stands(j, Seen(vol.g, old(vol.Now())), ch, start, torn0) ==>
      (!torn0 ==> idx < |ch| && current == ch[idx]) ==>
      && (ok ==>
            && Stands(j, Seen(vol.g, vol.Now()), ch1, start, torn) && (torn <==> torn0 || idx + 1 < |ch|)
            && ch1 == if torn then ch else ch + [added])
      && (ok && !torn0 && old(vol.Exact()) ==> vol.Exact())
      && (!torn0 && vol.cache.table.failures == old(vol.cache.table.failures) ==>
            && (ok <==> |ch| < Room(j))
            && (!ok ==> !torn && ch1 == ch && OnCourse(j, Seen(vol.g, vol.Now()), ch, start) && (old(vol.Exact()) ==> vol.Exact())))
  {
    hide Mounted, Coherent, ElsewhereSame, Fat1Within, KeepsClean, Abs, View, CountFree, FatWords, Merge28,
         Tracked, NoDangling, CrashSafe, Step, SameShape, OnCourse, IsChain, Linked, Uniform, Torn;
    var g := vol.g;
    ghost var w0 := vol.Now();
    ghost var v0 := Seen(g, w0);
    VolumeBounds(g, w0);
    ghost var given := j.m == g.BytesPerCluster() && Stands(j, v0, ch, start, torn0) && (!torn0 ==> idx < |ch| && current == ch[idx]);
    if given && !torn0 {
      OnCourseStep(j, v0, ch, start, idx);
    }
    ch1, torn := ch, torn0;
    ok, added := Extend(vol, current);
    ghost var w1 := vol.Now();
    StepBounds(g, w0, w1);
    if ok {
      AllClean(g, w0, w1, {});
      if given {
        ch1, torn := Extended(j, v0, ch, start, torn0, current, idx, added);
      }
    }
  }

  /** One turn of the walk: the link read, the limit checked, the chain extended where it seems to end. */
  method FollowLink(vol: Volume, current: nat, stop: bool, ghost j: Job, ghost ch: seq<nat>, ghost start: nat, ghost torn0: bool, ghost idx: nat)
    returns (ok: bool, next: nat, ghost ch1: seq<nat>, ghost torn: bool)
    requires vol.Valid()
    modifies vol`freeClusters, vol`nextFree, vol.cache.slots, vol.cache.table
    ensures vol.Valid() && Step(vol.g, old(vol.Now()), vol.Now())
    ensures ok ==> !stop && KeepsClean(vol.g, old(vol.Now()), vol.Now(), {})
    ensures old(Ordered(vol.g, vol.Now())) ==>
      CrashSafe(vol.g, old(vol.Now()), vol.Now()) && (ok ==> Ordered(vol.g, vol.Now()))
    ensures ch <= ch1 && (torn0 ==> torn) && (vol.cache.table.failures == old(vol.cache.table.failures) ==> torn == torn0)
    ensures j.m == vol.g.BytesPerCluster() && Stands(j, Seen(vol.g, old(vol.Now())), ch, start, torn0) ==>
      (!torn0 ==> idx < |ch| && current == ch[idx]) ==>
      && (ok || (!torn && vol.cache.table.failures == old(vol.cache.table.failures)) ==> Stands(j, Seen(vol.g, vol.Now()), ch1, start, torn))
      && (ok && !torn ==> |ch1| == Max(|ch|, idx + 2) && next == ch1[idx + 1])
      && (!torn && (ok || vol.cache.table.failures == old(vol.cache.table.failures)) && old(vol.Exact()) ==> vol.Exact())
      && (!torn && vol.cache.table.failures == old(vol.cache.table.failures) ==> (ok <==> !stop && idx + 1 < Room(j)))
  {
    hide Mounted, Coherent, ElsewhereSame, Fat1Within, KeepsClean, Abs, View, CountFree, FatWords, Merge28,
         Tracked, NoDangling, CrashSafe, Step, SameShape, OnCourse, IsChain, Linked, Uniform, Torn;
    var g := vol.g;
    ghost var w0 := vol.Now();
    VolumeBounds(g, w0);
    ghost var given := j.m == g.BytesPerCluster() && Stands(j, Seen(g, w0), ch, start, torn0) && (!torn0 ==> idx < |ch| && current == ch[idx]);
    if given && !torn0 {
      OnCourseStep(j, Seen(g, w0), ch, start, idx);
    }
    ch1, torn := ch, torn0;
    next := ReadLink(vol, current);
    ghost var w1 := vol.Now();
    StepBounds(g, w0, w1);
    if stop {
      return false, next, ch1, torn;
    }
    ok := true;
    if IsEoc(next) || next == FAT32_FREE || next == FAT32_BAD {
      ghost var read := next;
      ok, next, ch1, torn := ExtendHere(vol, current, j, ch, start, torn0, idx);
      ghost var w2 := vol.Now();
      StepTransitive(g, w0, w1, w2);
      StepBounds(g, w1, w2);
      if Ordered(g, w0) {
        CrashSafeTransitive(g, w0, w1, w2);
      }
      if torn && !torn0 {
        MisreadOnly(j, Seen(g, w1), ch, start, idx, read);
      }
      if ok {
        KeepsCleanTransitive(g, w0, w1, w2, {}, {}, {});
      }
    }
  }

  /** The inner loop of fat32_write_chain: follow `count` links from `start`, extending the chain
      at its end. `safety` counts links over the whole call. A link that cannot be read counts as the
      end of the chain; short of the real end that cuts the chain, and the walk is torn. */
  method Walk(vol: Volume, start: nat, count: nat, safety: nat, ghost j: Job, ghost ch: seq<nat>, ghost torn0: bool)
    returns (ok: bool, current: nat, steps: nat, ghost ch1: seq<nat>, ghost torn: bool)
    requires vol.Valid() && safety <= vol.g.totalClusters
    modifies vol`freeClusters, vol`nextFree, vol.cache.slots, vol.cache.table
    ensures vol.Valid() && Step(vol.g, old(vol.Now()), vol.Now())
    ensures old(Ordered(vol.g, vol.Now())) ==>
      CrashSafe(vol.g, old(vol.Now()), vol.Now()) && (ok ==> Ordered(vol.g, vol.Now()))
    ensures ok ==> steps == safety + count <= vol.g.totalClusters && KeepsClean(vol.g, old(vol.Now()), vol.Now(), {})
    ensures ch <= ch1 && (torn0 ==> torn) && (vol.cache.table.failures == old(vol.cache.table.failures) ==> torn == torn0)
    ensures j.m == vol.g.BytesPerCluster() && Stands(j, Seen(vol.g, old(vol.Now())), ch, start, torn0) ==>
      && (ok || (!torn && vol.cache.table.failures == old(vol.cache.table.failures)) ==> Stands(j, Seen(vol.g, vol.Now()), ch1, start, torn))
      && (ok && !torn ==> |ch1| == Max(|ch|, count + 1) && current == ch1[count])
      && (!torn && (ok || vol.cache.table.failures == old(vol.cache.table.failures)) && old(vol.Exact()) ==> vol.Exact())
      && (!torn && vol.cache.table.failures == old(vol.cache.table.failures) ==>
            (ok <==> safety + count <= vol.g.totalClusters && count < Room(j)))
  {
    hide Mounted, Coherent, ElsewhereSame, Fat1Within, KeepsClean, Abs, View, CountFree, FatWords, Merge28,
         Tracked, NoDangling, CrashSafe, Step, SameShape, OnCourse, IsChain, Linked, Uniform, Torn;
    var g := vol.g;
    ghost var w0 := vol.Now();
    VolumeBounds(g, w0);
    ghost var ordered := Ordered(g, w0);
    ghost var given := j.m == g.BytesPerCluster() && Stands(j, Seen(g, w0), ch, start, torn0);
    ghost var exact := vol.Exact();
    current, steps, ch1, torn := start, safety, ch, torn0;
    if given && !torn {
      OnCourseStart(j, Seen(g, w0), ch, start);
    }
    CrashSafeSelf(g, w0);
    WithinSelf(g, w0);
    for idx := 0 to count
      invariant vol.Valid() && Step(g, w0, vol.Now())
      invariant ordered ==> CrashSafe(g, w0, vol.Now()) && Ordered(g, vol.Now())
      invariant steps == safety + idx <= g.totalClusters && KeepsClean(g, w0, vol.Now(), {})
      invariant ch <= ch1 && (torn0 ==> torn) && (vol.cache.table.failures == w0.failures ==> torn == torn0)
      invariant given ==> Stands(j, Seen(g, vol.Now()), ch1, start, torn)
      invariant given && !torn ==> |ch1| == Max(|ch|, idx + 1) && current == ch1[idx] && (exact ==> vol.Exact())
    {
      ghost var w1 := vol.Now();
      StepBounds(g, w0, w1);
      steps := steps + 1;
      ok, current, ch1, torn := FollowLink(vol, current, steps > g.totalClusters, j, ch1, start, torn, idx);
      ghost var w2 := vol.Now();
      StepTransitive(g, w0, w1, w2);
      StepBounds(g, w1, w2);
      if ordered {
        CrashSafeTransitive(g, w0, w1, w2);
      }
      if !ok {
        return;
      }
      KeepsCleanTransitive(g, w0, w1, w2, {}, {}, {});
    }
    if given && !torn {
      OnCourseBounds(j, Seen(g, vol.Now()), ch1, start);
    }
    return true, current, steps, ch1, torn;
  }

  /** Short of the last cluster the link itself never says that the chain ends. */
  lemma MisreadOnly(j: Job, v: FatImage, ch: seq<nat>, start: nat, idx: nat, next: nat)
    requires OnCourse(j, v, ch, start) && idx + 1 < |ch| && (IsEoc(next) || next == FAT32_FREE || next == FAT32_BAD)
    requires |v.fat1| <= FAT32_BAD
    ensures 2 <= ch[idx] < |v.fat1| && next != Entry(v.fat1, ch[idx])
  {
    hide OnCourse;
    OnCourseStep(j, v, ch, start, idx);
  }

  /** What linking `added` behind `current` makes of the chain. */
  lemma Extended(j: Job, v: FatImage, ch: seq<nat>, start: nat, torn: bool, current: nat, idx: nat, added: nat)
    returns (ch1: seq<nat>, torn1: bool)
    requires Stands(j, v, ch, start, torn) && |v.fat1| == |v.fat2| == |v.data| <= FAT32_BAD
    requires 2 <= current < |v.fat1| && 2 <= added < |v.fat1| && Entry(v.fat1, added) == FAT32_FREE
    requires !torn ==> idx < |ch| && current == ch[idx]
    ensures Stands(j, Linked(v, current, added, j.m), ch1, start, torn1)
    ensures torn1 <==> torn || idx + 1 < |ch|
    ensures ch1 == if torn1 then ch else ch + [added]
  {
    hide OnCourse, IsChain, Linked, Torn;
    if torn {
      TornStays(v, ch, current, added, j.m);
      return ch, true;
    }
    OnCourseBounds(j, v, ch, start);
    if idx + 1 < |ch| {
      LinkTears(v, ch, idx, added, j.m);
      return ch, true;
    }
    OnCourseExtend(j, v, ch, start, added);
    return ch + [added], false;
  }

  lemma OnCourseStart(j: Job, v: FatImage, ch: seq<nat>, start: nat)
    requires OnCourse(j, v, ch, start)
    ensures |ch| > 0 && ch[0] == start
  {
  }

  /** What reading the link of the idx-th cluster will tell, and what remains to be taken. */
  lemma OnCourseStep(j: Job, v: FatImage, ch: seq<nat>, start: nat, idx: nat)
    requires OnCourse(j, v, ch, start) && idx < |ch|
    ensures |ch| + FreeCount(v.fat1) == Room(j) && |v.fat1| == |v.fat2|
    ensures 2 <= ch[idx] < |v.fat1| && Entry(v.fat1, ch[idx]) != FAT32_FREE
    ensures if idx < |ch| - 1 then Entry(v.fat1, ch[idx]) == ch[idx + 1] && 2 <= ch[idx + 1] < |v.fat1|
            else IsEoc(Entry(v.fat1, ch[idx]))
  {
    ChainStep(v.fat1, ch, idx);
  }

  lemma CrashSafeSelf(g: Geometry, w: World)
    ensures CrashSafe(g, w, w)
  {
  }

  lemma QuietIsCrashSafe(g: Geometry, w0: World, w1: World)
    requires Mounted(g, w0) && Mounted(g, w1) && Step(g, w0, w1) && Seen(g, w1) == Seen(g, w0)
    requires Fat1Within(g, w0, w1, Stored(g, w0).fat1, Seen(g, w0).fat1)
    ensures Ordered(g, w0) ==> CrashSafe(g, w0, w1) && Ordered(g, w1)
  {
    if Ordered(g, w0) {
      DataIsCrashSafe(g, w0, w1);
    }
  }

  /** C's conversion of a 32-bit count to a signed result. */
  function AsInt(n: nat): (r: int)
    ensures n < 0x1_0000_0000 ==> -0x8000_0000 <= r < 0x8000_0000 && (r == n || r == n - 0x1_0000_0000)
  {
    if n < 0x8000_0000 then n else n - U32_RANGE
  }

  /** Link steps of a whole call: each chunk walks from the start of the chain to its cluster. */
  function LinkSteps(first: nat, last: nat): nat
    decreases last - first
  {
    if first > last then 0 else first + LinkSteps(first + 1, last)
  }

  /** When fat32_write_chain can finish: the walks of all chunks together stay within the safety
      limit, and the clusters it needs are in the chain or free. */
  predicate CanFinish(total: nat, room: nat, m: nat, off: nat, len: nat)
    requires m > 0
  {
    len > 0 && LinkSteps(Index(m, off), Index(m, off + len - 1)) <= total && Index(m, off + len - 1) < room
  }

  /** The walks to all clusters from `first` to `last` add up to an arithmetic series. */
  lemma {:induction false} StepsAddUp(first: nat, last: nat)
    requires first <= last + 1
    ensures 2 * LinkSteps(first, last) == (last + 1 - first) * (first + last)
    decreases last + 1 - first
  {
    if first <= last {
      StepsAddUp(first + 1, last);
      calc {
        2 * LinkSteps(first, last);
        2 * first + (last - first) * (first + 1 + last);
        (last + 1 - first) * (first + last);
      }
    }
  }

  /** When a write can finish, in numbers: the clusters it touches are the file's a-th to b-th, b of them
      can be had and one more, and half of (b - a + 1)(a + b) is within the volume's number of clusters. */
  lemma CanFinishExactly(total: nat, room: nat, m: nat, off: nat, len: nat)
    requires m > 0 && len > 0
    ensures var a, b := off / m, (off + len - 1) / m;
      a <= b && (CanFinish(total, room, m, off, len) <==> b < room && (b + 1 - a) * (a + b) <= 2 * total)
  {
    var a, b := off / m, (off + len - 1) / m;
    IndexMonotone(m, off, off + len - 1);
    StepsAddUp(a, b);
  }

  /** The start of fat32_write_chain: a file without a chain gets one zeroed cluster. */
  method StartChain(vol: Volume, start: nat, off: nat, ghost ch: seq<nat>)
    returns (ok: bool, chainStart: nat, ghost ch1: seq<nat>)
    requires vol.Valid() && start < U32_RANGE
    modifies vol`freeClusters, vol`nextFree, vol.cache.slots, vol.cache.table
    ensures vol.Valid() && Step(vol.g, old(vol.Now()), vol.Now())
    ensures ok ==> KeepsClean(vol.g, old(vol.Now()), vol.Now(), {}) && chainStart < U32_RANGE
    ensures old(Ordered(vol.g, vol.Now())) ==>
      CrashSafe(vol.g, old(vol.Now()), vol.Now()) && (ok ==> Ordered(vol.g, vol.Now()))
    ensures ch <= ch1
    ensures Holds(Seen(vol.g, old(vol.Now())), start, ch) ==>
      && (vol.cache.table.failures == old(vol.cache.table.failures) ==>
            && (ok <==> 0 < |ch| + FreeCount(Seen(vol.g, old(vol.Now())).fat1))
            && (!ok ==> ch1 == ch == [] && Seen(vol.g, vol.Now()) == Seen(vol.g, old(vol.Now())) && (old(vol.Exact()) ==> vol.Exact())))
      && (ok ==> |ch1| == Max(|ch|, 1) && (old(vol.Exact()) ==> vol.Exact()))
      && (ok ==> OnCourse(Job(Seen(vol.g, old(vol.Now())), ch, vol.g.BytesPerCluster(), off, []), Seen(vol.g, vol.Now()), ch1, chainStart))
  {
    hide Mounted, Coherent, ElsewhereSame, Fat1Within, KeepsClean, Abs, View, CountFree, FatWords, Merge28,
         Tracked, NoDangling, CrashSafe, IsChain, Taken, Uniform, Rewritten, Covers;
    var g := vol.g;
    ghost var w0 := vol.Now();
    ghost var v0 := Seen(g, w0);
    VolumeBounds(g, w0);
    MountedUniform(g, w0);
    CrashSafeSelf(g, w0);
    ghost var ordered := Ordered(g, w0);
    ghost var job := Job(v0, ch, g.BytesPerCluster(), off, []);
    WithinSelf(g, w0);
    chainStart, ch1 := start, ch;
    if start >= 2 {
      if Holds(v0, start, ch) {
        OnCourseGiven(job, v0, start);
      }
      return true, chainStart, ch1;
    }
    chainStart := TakeZeroed(vol);
    ghost var w1 := vol.Now();
    StepBounds(g, w0, w1);
    if chainStart == FAT32_BAD {
      if w1.failures == w0.failures {
        QuietVolume(g, w0, w1);
      }
      return false, chainStart, ch1;
    }
    ok := vol.cache.Flush(g.dev);
    ghost var w2 := vol.Now();
    if ok {
      FlushedStored(g, w2);
      AllClean(g, w0, w2, {});
    }
    QuietVolume(g, w1, w2);
    QuietIsCrashSafe(g, w1, w2);
    StepTransitive(g, w0, w1, w2);
    if ordered {
      CrashSafeTransitive(g, w0, w1, w2);
    }
    if Holds(v0, start, ch) {
      ch1 := [chainStart];
      OnCourseTaken(job, v0, chainStart);
    }
  }

  lemma FlushedStored(g: Geometry, w: World)
    requires |w.slots| == CACHE_BLOCKS && g.dev < |w.disks| && w.disks[g.dev] == View(w, g.dev)
    ensures Mounted(g, w) ==> Stored(g, w) == Seen(g, w)
  {
  }

  /** A file's chain: none for a start cluster below 2, else the chain that starts there. */
  ghost predicate Holds(v: FatImage, start: nat, ch: seq<nat>) {
    if start < 2 then ch == [] else ChainFrom(v.fat1, ch, start)
  }

  lemma OnCourseGiven(j: Job, v: FatImage, start: nat)
    requires j.v0 == v && j.piece == [] && Uniform(v, j.m) && ChainFrom(v.fat1, j.ch0, start)
    ensures OnCourse(j, v, j.ch0, start) && |j.ch0| > 0
  {
    RewrittenStart(v, j.ch0, j.m, j.off);
  }

  lemma OnCourseTaken(j: Job, v: FatImage, added: nat)
    requires j.v0 == v && j.ch0 == [] && j.piece == [] && Uniform(v, j.m)
    requires 2 <= added < |v.fat1| && Entry(v.fat1, added) == FAT32_FREE
    ensures OnCourse(j, Taken(v, added, j.m), [added], added)
  {
    RewrittenTaken(v, added, j.m, j.off);
  }

  /** One chunk of fat32_write_chain: read the cluster, lay `piece` over it, write it back. */
  method WriteChunk(vol: Volume, current: nat, at: nat, piece: seq<Byte>,
                    ghost j: Job, ghost ch: seq<nat>, ghost start: nat, ghost idx: nat) returns (ok: bool)
    requires vol.Valid() && at + |piece| <= vol.g.BytesPerCluster()
    modifies vol.cache.slots, vol.cache.table
    ensures vol.Valid() && Step(vol.g, old(vol.Now()), vol.Now())
    ensures KeepsClean(vol.g, old(vol.Now()), vol.Now(), {current})
    ensures ok ==> Seen(vol.g, vol.Now()).fat1 == Seen(vol.g, old(vol.Now())).fat1
    ensures old(Ordered(vol.g, vol.Now())) ==>
      CrashSafe(vol.g, old(vol.Now()), vol.Now()) && (ok ==> Ordered(vol.g, vol.Now()))
    ensures OnCourse(j, Seen(vol.g, old(vol.Now())), ch, start) && j.m == vol.g.BytesPerCluster() ==>
      idx < |ch| && current == ch[idx] && IsPlace(j.m, idx, at, j.off + |j.piece|) ==>
      && (ok <==> vol.cache.table.failures == old(vol.cache.table.failures))
      && (ok ==> OnCourse(j.(piece := j.piece + piece), Seen(vol.g, vol.Now()), ch, start) && (old(vol.Exact()) ==> vol.Exact()))
  {
    hide Mounted, Coherent, ElsewhereSame, Fat1Within, KeepsClean, Abs, View, CountFree, FatWords, Merge28,
         Tracked, NoDangling, CrashSafe, IsChain, Uniform, Rewritten, Covers, OnCourse;
    var g := vol.g;
    ghost var w0 := vol.Now();
    ghost var v0 := Seen(g, w0);
    VolumeBounds(g, w0);
    ghost var given := OnCourse(j, v0, ch, start) && j.m == g.BytesPerCluster()
      && idx < |ch| && current == ch[idx] && IsPlace(j.m, idx, at, j.off + |j.piece|);
    if given {
      OnCourseStep(j, v0, ch, start, idx);
    }
    var scratch;
    ok, scratch := vol.ReadCluster(current);
    ghost var w1 := vol.Now();
    VolumeBounds(g, w1);
    QuietVolume(g, w0, w1);
    QuietIsCrashSafe(g, w0, w1);
    KeepsLess(g, w0, w1, current);
    if !ok {
      return false;
    }
    ok := vol.WriteCluster(current, scratch[..at] + piece + scratch[at + |piece|..]);
    ghost var w2 := vol.Now();
    KeepsCleanTransitive(g, w0, w1, w2, {current}, {current}, {current});
    StepTransitive(g, w0, w1, w2);
    StepBounds(g, w1, w2);
    if Ordered(g, w0) {
      DataIsCrashSafe(g, w1, w2);
      CrashSafeTransitive(g, w0, w1, w2);
    }
    if given && w2.failures == w0.failures {
      OnCourseSlice(j, v0, ch, start, idx, at, piece);
    }
  }

  lemma OnCourseSlice(j: Job, v: FatImage, ch: seq<nat>, start: nat, idx: nat, at: nat, piece: seq<Byte>)
    requires OnCourse(j, v, ch, start) && idx < |ch| && IsPlace(j.m, idx, at, j.off + |j.piece|) && at + |piece| <= j.m
    ensures ch[idx] < |v.data| && |v.data[ch[idx]]| == j.m
    ensures OnCourse(j.(piece := j.piece + piece), WithSlice(v, ch[idx], at, piece), ch, start)
  {
    RewrittenSlice(j.v0, v, j.ch0, ch, j.m, j.off, j.piece, idx, at, piece);
  }

  /** Index of the cluster that holds the last of `len` bytes at `off`. */
  function LastIndex(m: nat, off: nat, len: nat): nat
    requires m > 0 && len > 0
  {
    Index(m, off + len - 1)
  }

  /** Where byte `done` of a transfer at `off` lies: positions are computed in 32 bits. */
  function Absolute(off: nat, done: nat): Word { (off + done) % U32_RANGE }

  /** One turn of the outer loop of fat32_write_chain: walk to the cluster, write one chunk. */
  method WriteTurn(vol: Volume, start: nat, off: nat, buf: seq<Byte>, done: nat, safety: nat, ghost j: Job, ghost ch: seq<nat>, ghost torn0: bool)
    returns (ok: bool, chunk: nat, steps: nat, ghost ch1: seq<nat>, ghost torn: bool)
    requires vol.Valid() && done < |buf| && safety <= vol.g.totalClusters
    modifies vol`freeClusters, vol`nextFree, vol.cache.slots, vol.cache.table
    ensures vol.Valid() && Step(vol.g, old(vol.Now()), vol.Now())
    ensures old(Ordered(vol.g, vol.Now())) ==>
      CrashSafe(vol.g, old(vol.Now()), vol.Now()) && (ok ==> Ordered(vol.g, vol.Now()))
    ensures ok ==> steps <= vol.g.totalClusters && 0 < chunk <= |buf| - done
    ensures ch <= ch1 && (torn0 ==> torn) && (vol.cache.table.failures == old(vol.cache.table.failures) ==> torn == torn0)
    ensures j.m == vol.g.BytesPerCluster() && j.off + |j.piece| == Absolute(off, done) ==>
      Stands(j, Seen(vol.g, old(vol.Now())), ch, start, torn0) ==>
      var x := Absolute(off, done);
      && j.m > 0
      && (ok && torn ==> Torn(Seen(vol.g, vol.Now()), ch1))
      && (!torn && vol.cache.table.failures == old(vol.cache.table.failures) ==>
            (ok <==> safety + Index(j.m, x) <= vol.g.totalClusters && Index(j.m, x) < Room(j)))
      && (!ok && !torn && vol.cache.table.failures == old(vol.cache.table.failures) ==>
            OnCourse(j, Seen(vol.g, vol.Now()), ch1, start) && (old(vol.Exact()) ==> vol.Exact()))
      && (ok && !torn ==>
            && steps == safety + Index(j.m, x) && |ch1| == Max(|ch|, Index(j.m, x) + 1)
            && chunk == ChunkSize(j.m, x, |buf| - done)
            && OnCourse(j.(piece := j.piece + buf[done..done + chunk]), Seen(vol.g, vol.Now()), ch1, start)
            && KeepsClean(vol.g, old(vol.Now()), vol.Now(), Members(ch1))
            && (old(vol.Exact()) ==> vol.Exact()))
  {
    hide Mounted, Coherent, ElsewhereSame, Fat1Within, KeepsClean, Abs, View, CountFree, FatWords, Merge28,
         Tracked, NoDangling, CrashSafe, Step, SameShape, OnCourse, Index, Offset, IsPlace, Torn, Absolute;
    var g := vol.g;
    ghost var w0 := vol.Now();
    VolumeBounds(g, w0);
    ghost var ordered := Ordered(g, w0);
    var bpc := g.BytesPerCluster();
    var absolute := Absolute(off, done);
    var index := Index(bpc, absolute);
    var at := Offset(bpc, absolute);
    IndexOffset(bpc, absolute);
    chunk := if bpc - at > |buf| - done then |buf| - done else bpc - at;
    var current;
    ok, current, steps, ch1, torn := Walk(vol, start, index, safety, j, ch, torn0);
    ghost var w1 := vol.Now();
    StepBounds(g, w0, w1);
    if !ok {
      return;
    }
    var piece := buf[done..done + chunk];
    ok := WriteChunk(vol, current, at, piece, j, ch1, start, index);
    ghost var w2 := vol.Now();
    StepTransitive(g, w0, w1, w2);
    StepBounds(g, w1, w2);
    if ordered {
      CrashSafeTransitive(g, w0, w1, w2);
    }
    if ok && torn && Torn(Seen(g, w1), ch1) {
      TornInFat(Seen(g, w1), Seen(g, w2), ch1);
    }
    if current in ch1 {
      KeepsCleanTransitive(g, w0, w1, w2, {}, {current}, Members(ch1));
    }
  }

  lemma TornInFat(v0: FatImage, v1: FatImage, ch: seq<nat>)
    requires Torn(v0, ch) && v1.fat1 == v0.fat1
    ensures Torn(v1, ch)
  {
    var i: nat :| TornAt(v0, ch, i);
    assert TornAt(v1, ch, i);
  }

  /** The clusters of a chain. */
  ghost function Members(ch: seq<nat>): (s: set<nat>)
    ensures forall c :: c in s <==> c in ch
  {
    set c | c in ch
  }

  /** What a chain write leaves that ran to its end along its chain. */
  ghost predicate Written(v0: FatImage, v1: FatImage, ch: seq<nat>, ch1: seq<nat>, m: nat, off: nat, buf: seq<Byte>, newStart: nat)
    requires m > 0 && buf != []
  {
    && ch1 != [] && ch1[0] == newStart
    && |ch1| == Max(|ch|, LastIndex(m, off, |buf|) + 1)
    && Rewritten(v0, v1, ch, ch1, m, off, buf)
  }

  /** What a chain write leaves that was refused half way: a part of the bytes is in the chain, which
      may have grown, or nothing has happened at all. */
  ghost predicate PartWritten(v0: FatImage, v1: FatImage, ch: seq<nat>, ch1: seq<nat>, m: nat, off: nat, buf: seq<Byte>, done: nat, newStart: nat) {
    && done <= |buf|
    && if ch1 == [] then ch == [] && v1 == v0 && done == 0
       else ch1[0] == newStart && Rewritten(v0, v1, ch, ch1, m, off, buf[..done]) && Covers(ch1, m, off, buf[..done])
  }

  /** fat32_write_chain. `r` is the length on success and -1 on failure, converted as C does. A call
      that returns the length has rewritten the slice unless it was torn, by a link read that failed
      short of the chain's end; a refused call without a failing transfer has rewritten a part. */
  method WriteChain(vol: Volume, start: Word, off: Word, buf: seq<Byte>, ghost ch: seq<nat>)
    returns (r: int, newStart: nat, ghost ch1: seq<nat>, ghost finished: bool, ghost torn: bool, ghost done: nat)
    requires vol.Valid() && |buf| < U32_RANGE
    modifies vol`freeClusters, vol`nextFree, vol.cache.slots, vol.cache.table
    ensures vol.Valid() && Step(vol.g, old(vol.Now()), vol.Now())
    ensures r == (if finished then AsInt(|buf|) else -1) && newStart < U32_RANGE
    ensures old(Ordered(vol.g, vol.Now())) ==>
      CrashSafe(vol.g, old(vol.Now()), vol.Now()) && (finished ==> Ordered(vol.g, vol.Now()))
    ensures |buf| == 0 ==> finished && newStart == start && vol.Now() == old(vol.Now()) && vol.freeClusters == old(vol.freeClusters)
    ensures ch <= ch1 && (vol.cache.table.failures == old(vol.cache.table.failures) ==> !torn)
    ensures buf != [] && off + |buf| <= U32_RANGE && Holds(Seen(vol.g, old(vol.Now())), start, ch) ==>
      && vol.g.BytesPerCluster() > 0
      && (vol.cache.table.failures == old(vol.cache.table.failures) ==>
            (finished <==> CanFinish(vol.g.totalClusters, |ch| + FreeCount(Seen(vol.g, old(vol.Now())).fat1),
                                     vol.g.BytesPerCluster(), off, |buf|)))
      && (finished && !torn ==>
            && Written(Seen(vol.g, old(vol.Now())), Seen(vol.g, vol.Now()), ch, ch1, vol.g.BytesPerCluster(), off, buf, newStart)
            && CanFinish(vol.g.totalClusters, |ch| + FreeCount(Seen(vol.g, old(vol.Now())).fat1), vol.g.BytesPerCluster(), off, |buf|)
            && KeepsClean(vol.g, old(vol.Now()), vol.Now(), Members(ch1)))
      && (finished && torn ==> Torn(Seen(vol.g, vol.Now()), ch1))
      && (!finished && vol.cache.table.failures == old(vol.cache.table.failures) ==>
            PartWritten(Seen(vol.g, old(vol.Now())), Seen(vol.g, vol.Now()), ch, ch1, vol.g.BytesPerCluster(), off, buf, done, newStart))
      && (!torn && (finished || vol.cache.table.failures == old(vol.cache.table.failures)) && old(vol.Exact()) ==> vol.Exact())
  {
    hide Mounted, Coherent, ElsewhereSame, Fat1Within, KeepsClean, Abs, View, CountFree, FatWords, Merge28,
         Tracked, NoDangling, CrashSafe, IsChain, Uniform, Rewritten, Covers, Step, SameShape, Holds, Progress,
         CanFinish, LinkSteps, LastIndex, OnCourse, Index, Offset, IsPlace, Written, Torn, PartWritten;
    var g := vol.g;
    ghost var w0 := vol.Now();
    ghost var v0 := Seen(g, w0);
    VolumeBounds(g, w0);
    CrashSafeSelf(g, w0);
    if |buf| == 0 {
      return 0, start, ch, true, false, 0;
    }
    ghost var ordered := Ordered(g, w0);
    ghost var j := Job(v0, ch, g.BytesPerCluster(), off, []);
    ghost var given := off + |buf| <= U32_RANGE && Holds(v0, start, ch);
    var ok, chainStart;
    ok, chainStart, ch1 := StartChain(vol, start, off, ch);
    ghost var w1 := vol.Now();
    StepBounds(g, w0, w1);
    NoRoom(g.totalClusters, |ch| + FreeCount(v0.fat1), j.m, off, |buf|);
    if !ok {
      if given && w1.failures == w0.failures {
        NothingWritten(v0, j.m, off, buf, start);
      }
      return -1, start, ch1, false, false, 0;
    }
    ok, ch1, torn, done := WriteLoop(vol, chainStart, off, buf, j, ch1);
    ghost var w2 := vol.Now();
    StepTransitive(g, w0, w1, w2);
    StepBounds(g, w1, w2);
    if ordered {
      CrashSafeTransitive(g, w0, w1, w2);
    }
    if !ok {
      if given && w2.failures == w0.failures {
        PartReached(j, Seen(g, w2), ch1, chainStart, buf, done);
      }
      return -1, chainStart, ch1, false, torn, done;
    }
    if given && !torn {
      KeepsCleanTransitive(g, w0, w1, w2, {}, Members(ch1), Members(ch1));
      WrittenReached(j.(piece := buf), Seen(g, w2), ch1, chainStart, buf);
    }
    return AsInt(|buf|), chainStart, ch1, true, torn, |buf|;
  }

  /** The outer loop of fat32_write_chain. */
  method WriteLoop(vol: Volume, start: nat, off: nat, buf: seq<Byte>, ghost j0: Job, ghost ch: seq<nat>)
    returns (ok: bool, ghost ch1: seq<nat>, ghost torn: bool, ghost written: nat)
    requires vol.Valid() && buf != []
    modifies vol`freeClusters, vol`nextFree, vol.cache.slots, vol.cache.table
    ensures vol.Valid() && Step(vol.g, old(vol.Now()), vol.Now())
    ensures old(Ordered(vol.g, vol.Now())) ==>
      CrashSafe(vol.g, old(vol.Now()), vol.Now()) && (ok ==> Ordered(vol.g, vol.Now()))
    ensures ch <= ch1 && written <= |buf| && (vol.cache.table.failures == old(vol.cache.table.failures) ==> !torn)
    ensures off + |buf| <= U32_RANGE && Starting(j0, Seen(vol.g, old(vol.Now())), ch, start, vol.g.BytesPerCluster(), off) ==>
      && j0.m > 0
      && (vol.cache.table.failures == old(vol.cache.table.failures) ==>
            (ok <==> CanFinish(vol.g.totalClusters, Room(j0), j0.m, off, |buf|)))
      && (ok && torn ==> Torn(Seen(vol.g, vol.Now()), ch1))
      && (ok && !torn ==>
            && OnCourse(j0.(piece := buf), Seen(vol.g, vol.Now()), ch1, start)
            && CanFinish(vol.g.totalClusters, Room(j0), j0.m, off, |buf|)
            && |ch1| == Max(|j0.ch0|, LastIndex(j0.m, off, |buf|) + 1)
            && KeepsClean(vol.g, old(vol.Now()), vol.Now(), Members(ch1)))
      && (!ok && vol.cache.table.failures == old(vol.cache.table.failures) ==>
            OnCourse(j0.(piece := buf[..written]), Seen(vol.g, vol.Now()), ch1, start))
      && (!torn && (ok || vol.cache.table.failures == old(vol.cache.table.failures)) && old(vol.Exact()) ==> vol.Exact())
  {
    hide Mounted, Coherent, ElsewhereSame, Fat1Within, KeepsClean, Abs, View, CountFree, FatWords, Merge28,
         Tracked, NoDangling, CrashSafe, IsChain, Uniform, Rewritten, Covers, Step, SameShape, Holds, Progress,
         CanFinish, LinkSteps, LastIndex, OnCourse, Index, Offset, IsPlace, Torn;
    var g := vol.g;
    ghost var w0 := vol.Now();
    VolumeBounds(g, w0);
    CrashSafeSelf(g, w0);
    var len := |buf|;
    ghost var bpc := g.BytesPerCluster();
    ghost var ordered := Ordered(g, w0);
    ghost var exact := vol.Exact();
    ghost var given := off + len <= U32_RANGE && Starting(j0, Seen(g, w0), ch, start, bpc, off);
    ghost var before, room := |j0.ch0|, Room(j0);
    WithinSelf(g, w0);
    ch1, torn, written := ch, false, 0;
    var done: nat, safety: nat := 0, 0;
    ghost var j := j0.(piece := buf[..done]);
    if given {
      OnCourseBounds(j0, Seen(g, w0), ch, start);
      ProgressStart(bpc, off, len, |ch|, before, room);
      assert j == j0;
    }
    while done < len
      invariant vol.Valid() && Step(g, w0, vol.Now())
      invariant ordered ==> CrashSafe(g, w0, vol.Now()) && Ordered(g, vol.Now())
      invariant done <= len && safety <= g.totalClusters && ch <= ch1
      invariant j == j0.(piece := buf[..done])
      invariant vol.cache.table.failures == w0.failures ==> !torn
      invariant given ==> Stands(j, Seen(g, vol.Now()), ch1, start, torn)
      invariant given && !torn ==>
        && (exact ==> vol.Exact()) && KeepsClean(g, w0, vol.Now(), Members(ch1))
        && Progress(safety, bpc, off, done, len, |ch1|, before, room)
    {
      ghost var w1 := vol.Now();
      StepBounds(g, w0, w1);
      if given && !torn {
        ProgressStep(safety, bpc, off, done, len, |ch1|, before, room, g.totalClusters, ChunkSize(bpc, off + done, len - done));
        assert Room(j) == room;
      }
      var chunk;
      ghost var ch2, torn2 := ch1, torn;
      ok, chunk, safety, ch1, torn := WriteTurn(vol, start, off, buf, done, safety, j, ch1, torn);
      ghost var w2 := vol.Now();
      StepTransitive(g, w0, w1, w2);
      StepBounds(g, w1, w2);
      if ordered {
        CrashSafeTransitive(g, w0, w1, w2);
      }
      if !ok {
        return false, ch1, torn, done;
      }
      assert buf[..done] + buf[done..done + chunk] == buf[..done + chunk];
      done := done + chunk;
      j := j0.(piece := buf[..done]);
      if given && !torn {
        OnCourseBounds(j, Seen(g, w2), ch1, start);
        KeepsCleanTransitive(g, w0, w1, w2, Members(ch2), Members(ch1), Members(ch1));
      }
    }
    assert buf[..len] == buf;
    if given && !torn {
      ProgressEnds(safety, bpc, off, len, |ch1|, before, room, g.totalClusters);
    }
    return true, ch1, torn, len;
  }

  /** A write job before its first chunk. */
  ghost predicate Starting(j: Job, v: FatImage, ch: seq<nat>, start: nat, m: nat, off: nat) {
    && OnCourse(j, v, ch, start) && |ch| == Max(|j.ch0|, 1)
    && j.m == m && j.m > 0 && j.off == off && j.piece == []
  }

  /** Where the outer loop of fat32_write_chain stands. */
  ghost predicate Progress(safety: nat, m: nat, off: nat, done: nat, len: nat, now: nat, before: nat, room: nat)
    requires m > 0 && len > 0
  {
    var first, last := Index(m, off), LastIndex(m, off, len);
    && now <= room
    && (done < len ==>
          && Index(m, off + done) <= last
          && safety + LinkSteps(Index(m, off + done), last) == LinkSteps(first, last)
          && now == if done == 0 then Max(before, 1) else Max(before, Index(m, off + done)))
    && (done == len ==> safety == LinkSteps(first, last) && now == Max(before, last + 1))
  }

  lemma ProgressStart(m: nat, off: nat, len: nat, now: nat, before: nat, room: nat)
    requires m > 0 && len > 0 && now == Max(before, 1) && now <= room
    ensures Progress(0, m, off, 0, len, now, before, room)
  {
    IndexMonotone(m, off, off + len - 1);
  }

  lemma WrittenReached(j: Job, v: FatImage, ch: seq<nat>, start: nat, buf: seq<Byte>)
    requires OnCourse(j, v, ch, start) && j.piece == buf && buf != [] && j.m > 0
    requires |ch| == Max(|j.ch0|, LastIndex(j.m, j.off, |buf|) + 1)
    ensures Written(j.v0, v, j.ch0, ch, j.m, j.off, buf, start)
  {
    hide Rewritten;
  }

  lemma PartReached(j: Job, v: FatImage, ch: seq<nat>, start: nat, buf: seq<Byte>, done: nat)
    requires done <= |buf| && OnCourse(j.(piece := buf[..done]), v, ch, start)
    ensures PartWritten(j.v0, v, j.ch0, ch, j.m, j.off, buf, done, start)
  {
    hide Rewritten, Covers;
  }

  lemma NothingWritten(v: FatImage, m: nat, off: nat, buf: seq<Byte>, start: nat)
    ensures PartWritten(v, v, [], [], m, off, buf, 0, start)
  {
  }

  lemma NoRoom(total: nat, room: nat, m: nat, off: nat, len: nat)
    requires m > 0
    ensures room == 0 ==> !CanFinish(total, room, m, off, len)
  {
  }

  lemma {:induction false} StepsAreMonotone(first: nat, mid: nat, last: nat)
    requires first <= mid <= last
    ensures LinkSteps(mid, last) <= LinkSteps(first, last)
    decreases mid - first
  {
    if first < mid {
      StepsAreMonotone(first + 1, mid, last);
    }
  }

  /** One turn of the outer loop: it goes through exactly when the whole call still can. */
  lemma ProgressStep(safety: nat, m: nat, off: nat, done: nat, len: nat, now: nat, before: nat, room: nat,
                     total: nat, chunk: nat)
    requires m > 0 && done < len && Progress(safety, m, off, done, len, now, before, room)
    requires chunk == ChunkSize(m, off + done, len - done)
    ensures var index := Index(m, off + done);
      && (CanFinish(total, room, m, off, len) ==> safety + index <= total && index < room)
      && (index < room ==> Progress(safety + index, m, off, done + chunk, len, Max(now, index + 1), before, room))
  {
    hide Index, Offset;
    var index := Index(m, off + done);
    var last := LastIndex(m, off, len);
    NextIndex(m, off + done, off + len - 1, chunk);
    assert LinkSteps(last + 1, last) == 0;
  }

  lemma ProgressEnds(safety: nat, m: nat, off: nat, len: nat, now: nat, before: nat, room: nat, total: nat)
    requires m > 0 && len > 0 && Progress(safety, m, off, len, len, now, before, room) && safety <= total
    ensures CanFinish(total, room, m, off, len) && now == Max(before, LastIndex(m, off, len) + 1)
  {
  }

  /** Bytes that lie in a chain of `n` clusters, out of `len` wanted at `off`. */
  function Readable(n: nat, m: nat, off: nat, len: nat): nat {
    if off >= n * m then 0 else Min(len, n * m - off)
  }

  /** The one sound case in which fat32_read_chain gives up: a chain that takes every cluster of
      the volume, read from its first cluster to beyond its end, is one loop turn too many. */
  predicate Overrun(total: nat, n: nat, m: nat, off: nat, len: nat)
    requires m > 0
  {
    n == total && Index(m, off) == 0 && Readable(n, m, off, len) < len
  }

  /** In numbers: the chain takes all clusters, and the read goes from the first of them past the end. */
  lemma OverrunExactly(total: nat, n: nat, m: nat, off: nat, len: nat)
    requires m > 0 && total > 0
    ensures Overrun(total, n, m, off, len) <==> n == total && off < m && off + len > n * m
  {
    Locate(off, m);
    if n > 0 {
      MulLe(1, n, m);
    }
  }

  datatype Turn = More | Ended | Failed

  /** One turn of the loop of fat32_read_chain: find the cluster, copy one chunk. */
  method ReadTurn(vol: Volume, start: nat, off: nat, len: nat, done: nat, safety: nat, ghost ch: seq<nat>)
    returns (turn: Turn, piece: seq<Byte>)
    requires vol.Valid() && done < len
    modifies vol.cache.slots, vol.cache.table
    ensures vol.Valid() && Quiet(old(vol.Now()), vol.Now())
    ensures turn == More ==> 0 < |piece| <= len - done
    ensures ChainFrom(Seen(vol.g, old(vol.Now())).fat1, ch, start) && turn == More ==>
      vol.cache.table.failures == old(vol.cache.table.failures)
    ensures ChainFrom(Seen(vol.g, old(vol.Now())).fat1, ch, start) && off + len <= U32_RANGE ==>
      vol.cache.table.failures == old(vol.cache.table.failures) ==>
      && Uniform(Seen(vol.g, old(vol.Now())), vol.g.BytesPerCluster()) && Names(Seen(vol.g, old(vol.Now())), ch)
      && TurnOutcome(vol.g.totalClusters, Seen(vol.g, old(vol.Now())), ch, vol.g.BytesPerCluster(), off + done, len - done,
                     safety, turn, piece)
  {
    hide Mounted, Coherent, ElsewhereSame, Fat1Within, KeepsClean, Abs, View, FatWords, SameShape, Quiet, Index,
         Offset, IsPlace, Step;
    var g := vol.g;
    ghost var w0 := vol.Now();
    VolumeBounds(g, w0);
    MountedUniform(g, w0);
    var bpc := g.BytesPerCluster();
    var absolute := Absolute(off, done);
    var index := Index(bpc, absolute);
    var at := Offset(bpc, absolute);
    IndexOffset(bpc, absolute);
    var cluster := vol.GetNth(start, index, ch);
    ghost var w1 := vol.Now();
    VolumeBounds(g, w1);
    QuietVolume(g, w0, w1);
    var chunk := bpc - at;
    if safety + 1 > g.totalClusters {
      return Failed, [];
    }
    if cluster == FAT32_BAD {
      return Ended, [];
    }
    if chunk > len - done {
      chunk := len - done;
    }
    var ok, scratch := vol.ReadCluster(cluster);
    ghost var w2 := vol.Now();
    VolumeBounds(g, w2);
    QuietVolume(g, w1, w2);
    QuietTransitive(w0, w1, w2);
    if !ok {
      return Failed, [];
    }
    return More, scratch[at..at + chunk];
  }

  ghost predicate TurnOutcome(total: nat, v: FatImage, ch: seq<nat>, m: nat, x: nat, left: nat, safety: nat, turn: Turn, piece: seq<Byte>)
    requires Uniform(v, m) && Names(v, ch)
  {
    var index, at := Index(m, x), Offset(m, x);
    && turn == (if safety + 1 > total then Failed else if index < |ch| then More else Ended)
    && (turn == More ==> at + ChunkSize(m, x, left) <= m && piece == v.data[ch[index]][at..at + ChunkSize(m, x, left)])
  }

  /** fat32_read_chain. Whatever fails, the bytes returned are the chain's; a link that cannot be read
      ends the call as the end of the chain does, with fewer bytes than there are. */
  method ReadChain(vol: Volume, start: nat, off: Word, len: Word, ghost ch: seq<nat>) returns (r: int, buf: seq<Byte>)
    requires vol.Valid()
    modifies vol.cache.slots, vol.cache.table
    ensures vol.Valid() && Quiet(old(vol.Now()), vol.Now())
    ensures ChainFrom(Seen(vol.g, old(vol.Now())).fat1, ch, start) && off + len <= U32_RANGE ==>
      vol.cache.table.failures == old(vol.cache.table.failures) ==>
      ReadOutcome(vol.g.totalClusters, Seen(vol.g, old(vol.Now())), ch, vol.g.BytesPerCluster(), off, len, r, buf)
    ensures ChainFrom(Seen(vol.g, old(vol.Now())).fat1, ch, start) && off + len <= U32_RANGE ==>
      ReadPart(Seen(vol.g, old(vol.Now())), ch, vol.g.BytesPerCluster(), off, len, r, buf)
  {
    hide Mounted, Coherent, ElsewhereSame, Fat1Within, KeepsClean, Abs, View, FatWords, IsChain, Uniform,
         Content, SameShape, Quiet, Index, Offset, IsPlace, Step, ReadOutcome, ReadSoFar, ReadPart;
    var g := vol.g;
    ghost var w0 := vol.Now();
    ghost var v0 := Seen(g, w0);
    VolumeBounds(g, w0);
    MountedUniform(g, w0);
    buf := [];
    ghost var given := ChainFrom(v0.fat1, ch, start) && off + len <= U32_RANGE;
    var bpc := g.BytesPerCluster();
    if given {
      ReadStart(g.totalClusters, v0, ch, bpc, off, len);
      PartRead(g.totalClusters, v0, ch, bpc, off, 0, len, 0, []);
    }
    if len == 0 {
      return 0, buf;
    }
    if start < 2 {
      return -1, buf;
    }
    var done: nat, safety: nat := 0, 0;
    while done < len
      invariant vol.Valid() && Quiet(w0, vol.Now())
      invariant done == |buf| <= len
      invariant given ==> vol.cache.table.failures == w0.failures && ReadSoFar(g.totalClusters, v0, ch, bpc, off, done, len, safety, buf)
    {
      ghost var w1 := vol.Now();
      VolumeBounds(g, w1);
      QuietVolume(g, w0, w1);
      if given {
        ReadStep(g.totalClusters, v0, ch, bpc, off, done, len, safety, buf);
        PartRead(g.totalClusters, v0, ch, bpc, off, done, len, safety, buf);
      }
      var turn, piece := ReadTurn(vol, start, off, len, done, safety, ch);
      ghost var w2 := vol.Now();
      VolumeBounds(g, w2);
      QuietVolume(g, w1, w2);
      QuietTransitive(w0, w1, w2);
      safety := safety + 1;
      if turn == Failed {
        return -1, buf;
      }
      if turn == Ended {
        return AsInt(done), buf;
      }
      buf := buf + piece;
      done := done + |piece|;
    }
    if given {
      ReadEnds(g.totalClusters, v0, ch, bpc, off, len, safety, buf);
      PartRead(g.totalClusters, v0, ch, bpc, off, done, len, safety, buf);
    }
    return AsInt(done), buf;
  }

  /** What any chain read returns: an error, or bytes of the chain from the offset on. */
  ghost predicate ReadPart(v: FatImage, ch: seq<nat>, m: nat, off: nat, len: nat, r: int, buf: seq<Byte>) {
    && Uniform(v, m) && Names(v, ch)
    && (r == -1 || r == AsInt(|buf|)) && |buf| <= len
    && (buf != [] ==> off + |buf| <= |ch| * m && buf == Content(v, ch, m)[off..off + |buf|])
  }

  lemma PartRead(total: nat, v: FatImage, ch: seq<nat>, m: nat, off: nat, done: nat, len: nat, safety: nat, buf: seq<Byte>)
    requires ReadSoFar(total, v, ch, m, off, done, len, safety, buf)
    ensures ReadPart(v, ch, m, off, len, -1, buf) && ReadPart(v, ch, m, off, len, AsInt(done), buf)
  {
    hide Content;
  }

  /** What a chain read without a failing transfer returns. */
  ghost predicate ReadOutcome(total: nat, v: FatImage, ch: seq<nat>, m: nat, off: nat, len: nat, r: int, buf: seq<Byte>) {
    && Uniform(v, m) && Names(v, ch)
    && if Overrun(total, |ch|, m, off, len) then r == -1
       else var n := Readable(|ch|, m, off, len);
         r == AsInt(n) && |buf| == n && (n > 0 ==> off + n <= |ch| * m && buf == Content(v, ch, m)[off..off + n])
  }

  /** The read loop has `done` bytes and knows where the next one lies. */
  ghost predicate ReadSoFar(total: nat, v: FatImage, ch: seq<nat>, m: nat, off: nat, done: nat, len: nat, safety: nat, buf: seq<Byte>) {
    && Uniform(v, m) && IsChain(v.fat1, ch) && |v.fat1| == total + 2 <= FAT32_BAD
    && done <= len && |buf| == done
    && (done > 0 ==> off + done <= |ch| * m && buf == Content(v, ch, m)[off..off + done])
    && (done < len ==> Index(m, off + done) == Index(m, off) + safety)
  }

  lemma ReadStart(total: nat, v: FatImage, ch: seq<nat>, m: nat, off: nat, len: nat)
    requires Uniform(v, m) && IsChain(v.fat1, ch) && |v.fat1| == total + 2 <= FAT32_BAD
    ensures ReadSoFar(total, v, ch, m, off, 0, len, 0, []) && |ch| > 0 && 2 <= ch[0]
    ensures len == 0 ==> ReadOutcome(total, v, ch, m, off, len, 0, [])
  {
  }

  lemma ReadEnds(total: nat, v: FatImage, ch: seq<nat>, m: nat, off: nat, len: nat, safety: nat, buf: seq<Byte>)
    requires len > 0 && ReadSoFar(total, v, ch, m, off, len, len, safety, buf)
    ensures ReadOutcome(total, v, ch, m, off, len, AsInt(len), buf)
  {
    hide Content;
  }

  /** One turn of the read loop: the next cluster is the chain's, or there is none and the read ends. */
  lemma ReadStep(total: nat, v: FatImage, ch: seq<nat>, m: nat, off: nat, done: nat, len: nat, safety: nat, buf: seq<Byte>)
    requires done < len && ReadSoFar(total, v, ch, m, off, done, len, safety, buf)
    ensures m > 0 && Uniform(v, m) && IsChain(v.fat1, ch)
    ensures var index, at, chunk := Index(m, off + done), Offset(m, off + done), ChunkSize(m, off + done, len - done);
      if index < |ch| then
        && 2 <= ch[index] < |v.fat1| && ch[index] < FAT32_BAD && safety + 1 <= total && at + chunk <= |v.data[ch[index]]|
        && ReadSoFar(total, v, ch, m, off, done + chunk, len, safety + 1, buf + v.data[ch[index]][at..at + chunk])
      else ReadOutcome(total, v, ch, m, off, len, if safety + 1 > total then -1 else AsInt(done), buf)
  {
    hide Content, Index, Offset, IsPlace;
    ChainFits(ch, |v.fat1|);
    if Index(m, off + done) < |ch| {
      ReadMore(total, v, ch, m, off, done, len, safety, buf);
    } else {
      ReadPast(total, v, ch, m, off, done, len, safety, buf);
    }
  }

  lemma ReadMore(total: nat, v: FatImage, ch: seq<nat>, m: nat, off: nat, done: nat, len: nat, safety: nat, buf: seq<Byte>)
    requires done < len && ReadSoFar(total, v, ch, m, off, done, len, safety, buf) && Index(m, off + done) < |ch| <= total
    ensures var index, at, chunk := Index(m, off + done), Offset(m, off + done), ChunkSize(m, off + done, len - done);
      && safety + 1 <= total && at + chunk <= |v.data[ch[index]]|
      && ReadSoFar(total, v, ch, m, off, done + chunk, len, safety + 1, buf + v.data[ch[index]][at..at + chunk])
  {
    hide Content, Index, Offset, IsChain, IsPlace;
    var x := off + done;
    var index, at, chunk := Index(m, x), Offset(m, x), ChunkSize(m, x, len - done);
    IndexOffset(m, x);
    NextIndex(m, x, off + len - 1, chunk);
    ChainNames(v, ch, m);
    SliceOfContent(v, ch, m, index, at, chunk, x);
    if done > 0 {
      SlicesMeet(Content(v, ch, m), off, x, x + chunk);
    }
  }

  lemma ChainNames(v: FatImage, ch: seq<nat>, m: nat)
    requires Uniform(v, m) && IsChain(v.fat1, ch)
    ensures Names(v, ch)
  {
  }

  lemma SlicesMeet(b: seq<Byte>, i: nat, j: nat, k: nat)
    requires i <= j <= k <= |b|
    ensures b[i..j] + b[j..k] == b[i..k]
  {
  }

  lemma ReadPast(total: nat, v: FatImage, ch: seq<nat>, m: nat, off: nat, done: nat, len: nat, safety: nat, buf: seq<Byte>)
    requires done < len && ReadSoFar(total, v, ch, m, off, done, len, safety, buf) && |ch| <= total
    requires |ch| <= Index(m, off + done)
    ensures ReadOutcome(total, v, ch, m, off, len, if safety + 1 > total then -1 else AsInt(done), buf)
  {
    hide Content, Index, Offset;
    InsideChain(m, off + done, |ch|);
    InsideChain(m, off, |ch|);
    if done > 0 {
      BorderIndex(m, |ch|);
    }
  }

  lemma BorderIndex(m: nat, n: nat)
    requires m > 0
    ensures Index(m, n * m) == n
  {
    IndexUnique(m, n, 0);
  }
}
