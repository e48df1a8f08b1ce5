/** The structural checks a snapshot goes through while it is read: they accept exactly
    the chunk lists, groups and descriptors a search can rely on. */
module SnapshotChecks {
  import opened Basics
  import opened IndexModel
  import opened Candidates

  // ----- chunk geometry -----

  /** A chunk within its file, no longer than configured, read on by at most the overlap. */
  predicate GoodChunk(c: Chunk, sizes: seq<nat>, o: Options) {
    && c.file < |sizes| && c.coreBegin <= c.coreEnd <= c.extEnd <= sizes[c.file]
    && c.coreEnd - c.coreBegin <= o.chunkBytes
    && c.coreEnd <= U64_MAX - o.chunkOverlap
    && c.extEnd <= Min(sizes[c.file], c.coreEnd + o.chunkOverlap)
    && (c.coreBegin == c.coreEnd ==> sizes[c.file] == 0)
  }

  /** What is asked of a snapshot's chunks as a whole. */
  ghost predicate ChunksValid(chunks: seq<Chunk>, sizes: seq<nat>, o: Options) {
    Partition(chunks, sizes) && forall k | 0 <= k < |chunks| :: GoodChunk(chunks[k], sizes, o)
  }

  /** The chunk goes on in the same file, or begins a later one once this one is done. */
  predicate GoesOn(sizes: seq<nat>, a: Chunk, b: Chunk)
    requires a.file < |sizes|
  {
    (b.file == a.file && b.coreBegin == a.coreEnd) || (a.file < b.file && b.coreBegin == 0 && a.coreEnd == sizes[a.file])
  }

  predicate GoesOnAt(chunks: seq<Chunk>, sizes: seq<nat>, k: nat)
    requires 0 < k < |chunks| && chunks[k - 1].file < |sizes|
  {
    GoesOn(sizes, chunks[k - 1], chunks[k])
  }

  /** What the checks see of a list one chunk at a time. */
  ghost predicate Streamed(chunks: seq<Chunk>, sizes: seq<nat>, o: Options) {
    && (forall k | 0 <= k < |chunks| :: GoodChunk(chunks[k], sizes, o))
    && (chunks != [] ==> chunks[0].coreBegin == 0)
    && forall k | 0 < k < |chunks| :: GoesOnAt(chunks, sizes, k)
  }

  lemma StreamedSnoc(chunks: seq<Chunk>, sizes: seq<nat>, o: Options, c: Chunk)
    requires Streamed(chunks, sizes, o)
    ensures Streamed(chunks + [c], sizes, o) <==>
      GoodChunk(c, sizes, o) && if chunks == [] then c.coreBegin == 0 else GoesOn(sizes, Last(chunks), c)
  {
    var all := chunks + [c];
    assert all[|chunks|] == c;
    if GoodChunk(c, sizes, o) && (if chunks == [] then c.coreBegin == 0 else GoesOn(sizes, Last(chunks), c)) {
      assert forall k | 0 <= k < |all| :: GoodChunk(all[k], sizes, o);
      forall k | 0 < k < |all| ensures GoesOnAt(all, sizes, k) {
        if k < |chunks| { assert GoesOnAt(chunks, sizes, k); }
      }
    }
    if Streamed(all, sizes, o) {
      assert GoodChunk(all[|chunks|], sizes, o);
      if chunks != [] { assert GoesOnAt(all, sizes, |chunks|); }
    }
  }

  ghost predicate SeenFile(chunks: seq<Chunk>, file: nat) {
    exists k :: 0 <= k < |chunks| && chunks[k].file == file
  }

  lemma {:induction false} StreamedAscends(chunks: seq<Chunk>, sizes: seq<nat>, o: Options, a: nat, b: nat)
    requires Streamed(chunks, sizes, o) && a <= b < |chunks|
    ensures chunks[a].file <= chunks[b].file
    decreases b
  {
    if a < b {
      assert GoesOnAt(chunks, sizes, b);
      StreamedAscends(chunks, sizes, o, a, b - 1);
    }
  }

  /** With no file passed over, one chunk follows the other. */
  lemma StreamedPartition(chunks: seq<Chunk>, sizes: seq<nat>, o: Options)
    requires Streamed(chunks, sizes, o) && (forall f: nat | f < |sizes| :: SeenFile(chunks, f))
    requires chunks != [] ==> Last(chunks).coreEnd == sizes[Last(chunks).file]
    ensures ChunksValid(chunks, sizes, o)
  {
    forall k | 0 <= k < |chunks| ensures IndexModel.InFile(chunks[k], sizes) {
      assert GoodChunk(chunks[k], sizes, o);
    }
    forall k | 0 < k < |chunks| ensures LinkedAt(chunks, sizes, k) {
      assert GoesOnAt(chunks, sizes, k);
      NoneSkipped(chunks, sizes, o, k);
    }
    assert chunks != [] ==> GoodChunk(chunks[0], sizes, o);
    if sizes != [] {
      assert SeenFile(chunks, 0) && SeenFile(chunks, |sizes| - 1);
      var first, last :| 0 <= first < |chunks| && chunks[first].file == 0 && 0 <= last < |chunks| && chunks[last].file == |sizes| - 1;
      StreamedAscends(chunks, sizes, o, 0, first);
      StreamedAscends(chunks, sizes, o, last, |chunks| - 1);
    }
  }

  lemma NoneSkipped(chunks: seq<Chunk>, sizes: seq<nat>, o: Options, k: nat)
    requires Streamed(chunks, sizes, o) && (forall f: nat | f < |sizes| :: SeenFile(chunks, f)) && 0 < k < |chunks|
    ensures chunks[k].file <= chunks[k - 1].file + 1
  {
    var f := chunks[k - 1].file + 1;
    assert GoodChunk(chunks[k], sizes, o);
    if f < chunks[k].file {
      assert SeenFile(chunks, f);
      var m :| 0 <= m < |chunks| && chunks[m].file == f;
      if m <= k - 1 {
        StreamedAscends(chunks, sizes, o, m, k - 1);
      } else {
        StreamedAscends(chunks, sizes, o, k, m);
      }
    }
  }

  /** A valid list passes every step of the checks, and misses no file. */
  lemma PartitionStreamed(chunks: seq<Chunk>, sizes: seq<nat>, o: Options)
    requires ChunksValid(chunks, sizes, o)
    ensures Streamed(chunks, sizes, o)
    ensures forall f: nat | f < |sizes| :: SeenFile(chunks, f)
  {
    forall k | 0 < k < |chunks| ensures GoesOnAt(chunks, sizes, k) { assert LinkedAt(chunks, sizes, k); }
    forall f: nat | f < |sizes| ensures SeenFile(chunks, f) {
      var at := FilesReach(chunks, sizes, |chunks| - 1, f);
    }
  }

  lemma StreamedPrefix(chunks: seq<Chunk>, sizes: seq<nat>, o: Options, n: nat)
    requires Streamed(chunks, sizes, o) && n <= |chunks|
    ensures Streamed(chunks[..n], sizes, o)
  {
    forall k | 0 < k < n ensures GoesOnAt(chunks[..n], sizes, k) { assert GoesOnAt(chunks, sizes, k); }
  }

  /** Checks chunks as they arrive: the next core expected of each file, the files seen,
      and the file of the previous chunk. */
  class ChunkChecker {
    const sizes: seq<nat>
    const options: Options
    var next: seq<nat>
    var seen: seq<bool>
    var previous: nat
    var count: nat
    ghost var taken: seq<Chunk>

    ghost predicate Valid()
      reads this
    {
      && |next| == |seen| == |sizes| && count == |taken|
      && Streamed(taken, sizes, options)
      && (forall f: nat | f < |sizes| :: seen[f] <==> SeenFile(taken, f))
      && (forall f: nat | f < |sizes| && !seen[f] :: next[f] == 0)
      && (if taken == [] then previous == 0
          else previous == Last(taken).file < |sizes| && next[previous] == Last(taken).coreEnd)
      && (forall f: nat | f < |sizes| && seen[f] && f < previous :: next[f] == sizes[f])
      && (forall f: nat | f < |sizes| && seen[f] :: f <= previous)
    }

    constructor (sizes: seq<nat>, options: Options)
      ensures Valid() && taken == [] && this.sizes == sizes && this.options == options
    {
      this.sizes, this.options := sizes, options;
      next := seq(|sizes|, _ => 0);
      seen := seq(|sizes|, _ => false);
      previous, count := 0, 0;
      taken := [];
    }

    /** Takes one more chunk exactly when the list stays well streamed. */
    method Take(c: Chunk) returns (ok: bool)
      requires Valid()
      modifies this
      ensures ok <==> Streamed(old(taken) + [c], sizes, options)
      ensures ok ==> Valid() && taken == old(taken) + [c]
    {
      StreamedSnoc(taken, sizes, options, c);
      if taken != [] { assert SeenFile(taken, previous); }
      ok := GoodChunk(c, sizes, options)
        && (count == 0 || previous <= c.file)
        && c.coreBegin == next[c.file]
        && (count == 0 || c.file <= previous || next[previous] == sizes[previous]);
      if ok {
        ghost var before := taken;
        next := next[c.file := c.coreEnd];
        seen := seen[c.file := true];
        previous, count := c.file, count + 1;
        taken := taken + [c];
        forall f: nat | f < |sizes| ensures SeenFile(taken, f) <==> SeenFile(before, f) || f == c.file {
          SeenSnoc(before, c, f);
        }
      }
    }

    /** Every file is seen to its end. */
    method Finish() returns (ok: bool)
      requires Valid()
      ensures ok <==> ChunksValid(taken, sizes, options)
    {
      if ChunksValid(taken, sizes, options) {
        PartitionStreamed(taken, sizes, options);
        forall f | 0 <= f < |sizes| ensures seen[f] && next[f] == sizes[f] {
          assert SeenFile(taken, f);
        }
      }
      ok := forall f | 0 <= f < |sizes| :: seen[f] && next[f] == sizes[f];
      if ok {
        StreamedPartition(taken, sizes, options);
      }
    }
  }

  lemma SeenSnoc(chunks: seq<Chunk>, c: Chunk, f: nat)
    ensures SeenFile(chunks + [c], f) <==> SeenFile(chunks, f) || f == c.file
  {
    var all := chunks + [c];
    assert all[|chunks|] == c;
    if k :| 0 <= k < |chunks| && chunks[k].file == f { assert all[k].file == f; }
  }

  // ----- group references -----

  predicate ShapeOk(g: Group) {
    && FIRST_LG <= g.lg <= LAST_LG && g.m == RowsOf(g.lg) && g.words == WordsFor(|g.gids|)
    && |g.bits| == Table(g.words, g.m)
  }

  /** A column that holds a chunk of the group's class, in no earlier column. */
  ghost predicate FreshColumn(chunks: seq<Chunk>, before: seq<Group>, g: Group, li: nat)
    requires li < |g.gids|
  {
    var ci := g.gids[li];
    ci < |chunks| && ClassOf(chunks[ci]) == g.lg && !Placed(before, ci) && forall i | 0 <= i < li :: g.gids[i] != ci
  }

  /** What the checks see of a list one group at a time. */
  ghost predicate GroupsStreamed(chunks: seq<Chunk>, groups: seq<Group>) {
    groups == [] ||
    (GroupsStreamed(chunks, Front(groups)) && ShapeOk(Last(groups)) &&
     forall li | 0 <= li < |Last(groups).gids| :: FreshColumn(chunks, Front(groups), Last(groups), li))
  }

  /** What is asked of a snapshot's groups as a whole. */
  ghost predicate GroupsValid(chunks: seq<Chunk>, groups: seq<Group>) {
    && |groups| == 8 && (forall k | 0 <= k < 8 :: Shaped(groups[k], chunks))
    && GroupsCover(chunks, groups)
  }

  lemma ColumnSnoc(groups: seq<Group>, g: Group, k: nat, li: nat, ci: nat)
    ensures Column(groups + [g], k, li, ci) <==> Column(groups, k, li, ci) || (k == |groups| && li < |g.gids| && g.gids[li] == ci)
  {
    var all := groups + [g];
    assert all[|groups|] == g;
  }

  lemma PlacedSnoc(groups: seq<Group>, g: Group, ci: nat)
    ensures Placed(groups + [g], ci) <==> Placed(groups, ci) || ci in g.gids
  {
    if Placed(groups + [g], ci) {
      var k: nat, li: nat :| Column(groups + [g], k, li, ci);
      ColumnSnoc(groups, g, k, li, ci);
    }
    if Placed(groups, ci) {
      var k: nat, li: nat :| Column(groups, k, li, ci);
      ColumnSnoc(groups, g, k, li, ci);
    }
    if ci in g.gids {
      var li: nat :| li < |g.gids| && g.gids[li] == ci;
      ColumnSnoc(groups, g, |groups|, li, ci);
    }
  }

  /** Streamed groups hold no chunk twice, and only chunks of their class. */
  lemma {:induction false} StreamedGroups(chunks: seq<Chunk>, groups: seq<Group>)
    requires GroupsStreamed(chunks, groups)
    ensures forall k | 0 <= k < |groups| :: Shaped(groups[k], chunks)
    ensures forall k: nat, li: nat, ci: nat | Column(groups, k, li, ci) :: ci < |chunks| && ClassOf(chunks[ci]) == groups[k].lg
    ensures forall k: nat, li: nat, k': nat, li': nat, ci: nat | Column(groups, k, li, ci) && Column(groups, k', li', ci) :: k == k' && li == li'
    decreases |groups|
  {
    if groups != [] {
      var before, g := Front(groups), Last(groups);
      StreamedGroups(chunks, before);
      forall k: nat, li: nat, ci: nat ensures Column(groups, k, li, ci) <==>
        (Column(before, k, li, ci) || (k == |before| && li < |g.gids| && g.gids[li] == ci)) {
        ColumnSnoc(before, g, k, li, ci);
        assert before + [g] == groups;
      }
      assert forall li: nat | li < |g.gids| :: FreshColumn(chunks, before, g, li);
      forall k | 0 <= k < |groups| ensures Shaped(groups[k], chunks) {
        if k < |before| {
          assert groups[k] == before[k];
        } else {
          forall li | 0 <= li < |g.gids| ensures g.gids[li] < |chunks| { assert FreshColumn(chunks, before, g, li); }
        }
      }
      forall k: nat, li: nat, ci: nat | Column(groups, k, li, ci) ensures ci < |chunks| && ClassOf(chunks[ci]) == groups[k].lg {
        if k < |before| {
          assert Column(before, k, li, ci);
        } else {
          assert FreshColumn(chunks, before, g, li);
        }
      }
      forall k: nat, li: nat, k': nat, li': nat, ci: nat | Column(groups, k, li, ci) && Column(groups, k', li', ci) ensures k == k' && li == li' {
        OneColumn(chunks, before, g, k, li, k', li', ci);
      }
    }
  }

  lemma OneColumn(chunks: seq<Chunk>, before: seq<Group>, g: Group, k: nat, li: nat, k': nat, li': nat, ci: nat)
    requires forall li: nat | li < |g.gids| :: FreshColumn(chunks, before, g, li)
    requires forall k: nat, li: nat, k': nat, li': nat, ci: nat | Column(before, k, li, ci) && Column(before, k', li', ci) :: k == k' && li == li'
    requires Column(before, k, li, ci) || (k == |before| && li < |g.gids| && g.gids[li] == ci)
    requires Column(before, k', li', ci) || (k' == |before| && li' < |g.gids| && g.gids[li'] == ci)
    ensures k == k' && li == li'
  {
    if k == |before| { assert FreshColumn(chunks, before, g, li); }
    if k' == |before| { assert FreshColumn(chunks, before, g, li'); }
  }

  /** Valid groups pass every step of the checks. */
  lemma {:induction false} ValidStreamed(chunks: seq<Chunk>, groups: seq<Group>, n: nat)
    requires GroupsValid(chunks, groups) && n <= 8
    ensures GroupsStreamed(chunks, groups[..n])
  {
    if n > 0 {
      ValidStreamed(chunks, groups, n - 1);
      var g := groups[n - 1];
      var before := groups[..n - 1];
      assert Front(groups[..n]) == before;
      forall li | 0 <= li < |g.gids| ensures FreshColumn(chunks, before, g, li) {
        assert Column(groups, n - 1, li, g.gids[li]);
        NotEarlier(groups, n - 1, li);
        forall i: nat | i < li ensures g.gids[i] != g.gids[li] {
          assert Column(groups, n - 1, i, g.gids[i]);
        }
      }
    }
  }

  lemma NotEarlier(groups: seq<Group>, k: nat, li: nat)
    requires k < |groups| && li < |groups[k].gids|
    requires forall k: nat, li: nat, k': nat, li': nat, ci: nat | Column(groups, k, li, ci) && Column(groups, k', li', ci) :: k == k' && li == li'
    ensures !Placed(groups[..k], groups[k].gids[li])
  {
    var ci := groups[k].gids[li];
    if Placed(groups[..k], ci) {
      var m: nat, i: nat :| Column(groups[..k], m, i, ci);
      assert Column(groups, m, i, ci) && Column(groups, k, li, ci);
      assert false;
    }
  }

  /** Checks groups as they arrive against the chunks already claimed. */
  class GroupChecker {
    const chunks: seq<Chunk>
    var grouped: seq<bool>
    ghost var taken: seq<Group>

    ghost predicate Valid()
      reads this
    {
      && |grouped| == |chunks| && GroupsStreamed(chunks, taken)
      && forall ci: nat | ci < |chunks| :: grouped[ci] <==> Placed(taken, ci)
    }

    constructor (chunks: seq<Chunk>)
      ensures Valid() && taken == [] && this.chunks == chunks
    {
      this.chunks := chunks;
      grouped := seq(|chunks|, _ => false);
      taken := [];
    }

    /** Takes one more group exactly when the list stays well streamed. */
    method Take(g: Group) returns (ok: bool)
      requires Valid()
      modifies this
      ensures ok <==> GroupsStreamed(chunks, old(taken) + [g])
      ensures ok ==> Valid() && taken == old(taken) + [g]
    {
      assert Front(taken + [g]) == taken && Last(taken + [g]) == g;
      TableIs(g.words, g.m);
      if !(FIRST_LG <= g.lg <= LAST_LG && g.m == RowsOf(g.lg) && g.words == WordsFor(|g.gids|) && |g.bits| == g.m * g.words) {
        return false;
      }
      var claimed;
      ok, claimed := Claim(chunks, taken, g, grouped);
      if ok {
        forall ci: nat ensures Placed(taken + [g], ci) <==> Placed(taken, ci) || ci in g.gids { PlacedSnoc(taken, g, ci); }
        grouped := claimed;
        taken := taken + [g];
      }
    }

    /** Every chunk is claimed. */
    method Finish() returns (ok: bool)
      requires Valid() && |taken| == 8
      ensures ok <==> GroupsValid(chunks, taken)
    {
      StreamedGroups(chunks, taken);
      ok := forall ci | 0 <= ci < |grouped| :: grouped[ci];
    }
  }

  /** Marks the chunks of the group, unless one is unknown, claimed or of another class. */
  method Claim(chunks: seq<Chunk>, ghost before: seq<Group>, g: Group, grouped: seq<bool>) returns (ok: bool, claimed: seq<bool>)
    requires |grouped| == |chunks| && forall ci: nat | ci < |chunks| :: grouped[ci] <==> Placed(before, ci)
    ensures ok <==> forall li | 0 <= li < |g.gids| :: FreshColumn(chunks, before, g, li)
    ensures ok ==> |claimed| == |chunks| && forall ci: nat | ci < |chunks| :: claimed[ci] <==> Placed(before, ci) || ci in g.gids
  {
    claimed := grouped;
    for li := 0 to |g.gids|
      invariant |claimed| == |chunks|
      invariant forall ci: nat | ci < |chunks| :: claimed[ci] <==> Placed(before, ci) || exists i :: 0 <= i < li && g.gids[i] == ci
      invariant forall i | 0 <= i < li :: FreshColumn(chunks, before, g, i)
    {
      var ci := g.gids[li];
      if ci >= |chunks| || claimed[ci] || LgFor(chunks[ci].Length()) != g.lg {
        assert !FreshColumn(chunks, before, g, li);
        return false, claimed;
      }
      claimed := claimed[ci := true];
    }
    ok := true;
  }

  // ----- positional descriptors -----

  /** The descriptors lie one after the other and fill the table, checked in order. */
  method CheckDescriptors(descs: seq<PosDesc>, chunks: seq<Chunk>, blockBytes: nat, total: nat) returns (ok: bool)
    requires blockBytes > 0 && |descs| == |chunks| && forall k | 0 <= k < |chunks| :: chunks[k].coreBegin <= chunks[k].coreEnd
    requires total <= U64_MAX
    ensures ok <==> Tiled(descs, chunks, blockBytes, total)
  {
    var end := 0;
    for k := 0 to |descs|
      invariant end == PosEnd(descs, k) <= total
      invariant forall i | 0 <= i < k :: DescOk(descs, chunks, blockBytes, i)
    {
      var d := descs[k];
      var length := chunks[k].coreEnd - chunks[k].coreBegin;
      var blocks := Max(1, (length + blockBytes - 1) / blockBytes);
      PiecesIs(length, blockBytes);
      TableIs(d.maskBytes, d.m);
      if !RowCount(d.m) || d.blocks != blocks || d.maskBytes != (blocks + 7) / 8 || d.off != end
        || d.maskBytes > (total - Min(end, total)) / d.m || end > U64_MAX - d.m * d.maskBytes
      {
        NotTiled(descs, chunks, blockBytes, total, k);
        return false;
      }
      RoomIff(d.maskBytes, d.m, total - end);
      end := end + d.m * d.maskBytes;
    }
    ok := end == total;
    if ok { AllDescsOk(descs, chunks, blockBytes, total); }
  }

  predicate DescOk(descs: seq<PosDesc>, chunks: seq<Chunk>, blockBytes: nat, k: nat)
    requires blockBytes > 0 && k < |descs| <= |chunks|
  {
    chunks[k].coreBegin <= chunks[k].coreEnd && DescFits(descs[k], chunks[k], blockBytes) && descs[k].off == PosEnd(descs, k)
  }

  lemma RoomIff(mask: nat, m: nat, room: nat)
    requires m > 0
    ensures mask <= room / m <==> m * mask <= room
  {
    assert room == (room / m) * m + room % m;
    if mask <= room / m {
      MulAtMost(mask, room / m, m);
    } else {
      MulAtMost(room / m + 1, mask, m);
    }
  }

  lemma MulAtMost(a: nat, b: nat, m: nat)
    requires a <= b
    ensures a * m <= b * m
  {}

  lemma AllDescsOk(descs: seq<PosDesc>, chunks: seq<Chunk>, blockBytes: nat, total: nat)
    requires blockBytes > 0 && |descs| == |chunks| && total == PosEnd(descs, |descs|)
    requires forall k | 0 <= k < |descs| :: DescOk(descs, chunks, blockBytes, k)
    ensures Tiled(descs, chunks, blockBytes, total)
  {
    forall k | 0 <= k < |descs|
      ensures chunks[k].coreBegin <= chunks[k].coreEnd && DescFits(descs[k], chunks[k], blockBytes) && descs[k].off == PosEnd(descs, k)
    {
      assert DescOk(descs, chunks, blockBytes, k);
    }
  }

  /** A descriptor that fails its check is not part of a tiling. */
  lemma NotTiled(descs: seq<PosDesc>, chunks: seq<Chunk>, blockBytes: nat, total: nat, k: nat)
    requires blockBytes > 0 && k < |descs| == |chunks| && total <= U64_MAX
    requires var d := descs[k];
      || chunks[k].coreBegin > chunks[k].coreEnd || !DescFits(d, chunks[k], blockBytes) || d.off != PosEnd(descs, k)
      || PosEnd(descs, k) + d.m * d.maskBytes > total
    ensures !Tiled(descs, chunks, blockBytes, total)
  {
    if Tiled(descs, chunks, blockBytes, total) {
      TileInside(descs, chunks, blockBytes, total, k);
      TableIs(descs[k].maskBytes, descs[k].m);
      assert false;
    }
  }
}
