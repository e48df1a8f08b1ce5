/** Index construction: the layout of chunks, and the two filter layers filled in place. */
module IndexBuild {
  import opened Basics
  import opened IndexModel

  // ----- chunk layout -----

  /** The chunks so far cut everything before offset `b` of file `file`. */
  ghost predicate LaidTo(chunks: seq<Chunk>, sizes: seq<nat>, file: nat, b: nat) {
    && Chained(chunks, sizes)
    && if chunks == [] then file == 0 && b == 0
       else
         || (Last(chunks).file == file && Last(chunks).coreEnd == b)
         || (b == 0 && Last(chunks).file + 1 == file && Last(chunks).coreEnd == sizes[Last(chunks).file])
  }

  lemma ReachedSnoc(chunks: seq<Chunk>, sizes: seq<nat>, c: Chunk)
    requires LaidTo(chunks, sizes, c.file, c.coreBegin) && InFile(c, sizes)
    ensures LaidTo(chunks + [c], sizes, c.file, c.coreEnd)
  {
    var all := chunks + [c];
    assert forall k | 0 <= k < |all| :: InFile(all[k], sizes);
    forall k | 0 < k < |all| ensures LinkedAt(all, sizes, k) {
      if k < |chunks| { assert LinkedAt(chunks, sizes, k); }
    }
  }

  /** Chunks of the configured size and overlap, up to offset `b` of file `file`. */
  ghost predicate LaidUpTo(chunks: seq<Chunk>, sizes: seq<nat>, o: Options, file: nat, b: nat) {
    && LaidTo(chunks, sizes, file, b)
    && Overlapping(chunks, sizes, o.chunkOverlap)
    && FullCores(chunks, sizes, o.chunkBytes)
  }

  lemma LaySnoc(chunks: seq<Chunk>, sizes: seq<nat>, o: Options, c: Chunk)
    requires LaidUpTo(chunks, sizes, o, c.file, c.coreBegin) && InFile(c, sizes)
    requires c.extEnd == Min(sizes[c.file], c.coreEnd + o.chunkOverlap) && c.coreEnd == Min(sizes[c.file], c.coreBegin + o.chunkBytes)
    ensures LaidUpTo(chunks + [c], sizes, o, c.file, c.coreEnd)
  {
    ReachedSnoc(chunks, sizes, c);
  }

  lemma LaidNext(chunks: seq<Chunk>, sizes: seq<nat>, o: Options, file: nat)
    requires file < |sizes| && LaidUpTo(chunks, sizes, o, file, sizes[file])
    requires chunks != [] && Last(chunks).file == file
    ensures LaidUpTo(chunks, sizes, o, file + 1, 0)
  {}

  lemma LaidAll(chunks: seq<Chunk>, sizes: seq<nat>, o: Options)
    requires LaidUpTo(chunks, sizes, o, |sizes|, 0)
    ensures Partition(chunks, sizes)
  {
    if chunks != [] { assert InFile(Last(chunks), sizes); }
  }

  // ----- filling one column of a group -----

  /** Reading one byte further brings in the gram that ends there. */
  lemma HasRowStep(hash: Hash, text: seq<Byte>, begin: nat, end: nat, further: nat, m: nat)
    requires begin + 3 <= end && further == end + 1 <= |text| && m > 0
    ensures forall row: int :: (HasRow(hash, text, begin, further, m, row)
      <==> (HasRow(hash, text, begin, end, m, row) || hash(GramAt(text, end - 3)) % m == row))
  {
    forall row: int
      ensures HasRow(hash, text, begin, further, m, row)
        <==> (HasRow(hash, text, begin, end, m, row) || hash(GramAt(text, end - 3)) % m == row)
    {
      if j: nat :| GramIn(text, begin, further, j) && hash(GramAt(text, j)) % m == row {
        if j < end - 3 { assert GramIn(text, begin, end, j); }
      }
      if j: nat :| GramIn(text, begin, end, j) && hash(GramAt(text, j)) % m == row { assert GramIn(text, begin, further, j); }
      assert GramIn(text, begin, further, end - 3);
    }
  }

  /** Setting one bit of a table changes that bit alone. */
  lemma LitSet(bits: seq<Word>, base: nat, m: nat, stride: nat, row: nat, word: nat, bit: nat, r: nat, w: nat, b: nat)
    requires base + Table(stride, m) <= |bits| && row < m && word < stride && r < m && w < stride
    ensures base + Table(stride, row) + stride <= |bits| && base + Table(stride, r) + stride <= |bits|
    ensures Lit(SetBit(bits, base + Table(stride, row) + word, bit), base, stride, r, w, b)
      <==> Lit(bits, base, stride, r, w, b) || (r == row && w == word && b == bit)
  {
    RowFits(row, m, stride);
    RowFits(r, m, stride);
    if Table(stride, r) + w == Table(stride, row) + word {
      Places(stride, r, w, row, word);
    }
  }

  function SetBit(bits: seq<Word>, i: nat, bit: nat): (r: seq<Word>)
    requires i < |bits|
    ensures |r| == |bits| && forall k | 0 <= k < |r| && k != i :: r[k] == bits[k]
    ensures forall n: nat | WordsInside(bits, n) && bit < n :: WordsInside(r, n)
  {
    bits[i := bits[i] + {bit}]
  }

  /** Column `li` gets the rows of the grams in [begin, end); no other bit changes. */
  ghost predicate ColumnFilled(hash: Hash, before: Group, after: Group, li: nat, text: seq<Byte>, begin: nat, end: int)
    requires end <= |text| && |before.bits| == Table(before.words, before.m) && before.m > 0
  {
    && after == before.(bits := after.bits) && |after.bits| == |before.bits|
    && (WordsInside(before.bits, 64) ==> WordsInside(after.bits, 64))
    && forall row: nat, k: nat | row < after.m && k / 64 < after.words ::
         GroupLit(after, row, k) <==> GroupLit(before, row, k) || (k == li && HasRow(hash, text, begin, end, after.m, row))
  }

  lemma ColumnStep(hash: Hash, before: Group, g: Group, li: nat, text: seq<Byte>, begin: nat, j: nat, row: nat, i: nat)
    requires begin <= j && j + 4 <= |text| && |before.bits| == Table(before.words, before.m) && before.m > 0 && li / 64 < before.words
    requires ColumnFilled(hash, before, g, li, text, begin, j + 3)
    requires row == hash(GramAt(text, j)) % g.m && i == Table(g.words, row) + li / 64 && i < |g.bits|
    ensures ColumnFilled(hash, before, g.(bits := SetBit(g.bits, i, li % 64)), li, text, begin, j + 4)
  {
    var after := g.(bits := SetBit(g.bits, i, li % 64));
    HasRowStep(hash, text, begin, j + 3, j + 4, g.m);
    forall r: nat, k: nat | r < g.m && k / 64 < g.words
      ensures GroupLit(after, r, k) <==> GroupLit(before, r, k) || (k == li && HasRow(hash, text, begin, j + 4, g.m, r))
    {
      LitSet(g.bits, 0, g.m, g.words, row, li / 64, li % 64, r, k / 64, k % 64);
      assert GroupLit(g, r, k) <==> GroupLit(before, r, k) || (k == li && HasRow(hash, text, begin, j + 3, g.m, r));
    }
  }

  method FillColumn(hash: Hash, before: Group, li: nat, text: seq<Byte>, begin: nat, end: nat) returns (g: Group)
    requires begin <= end <= |text| && before.m > 0 && |before.bits| == Table(before.words, before.m) && li / 64 < before.words
    ensures ColumnFilled(hash, before, g, li, text, begin, end)
  {
    g := before;
    if end - begin >= 4 {
      var j := begin;
      while j + 4 <= end
        invariant begin <= j <= end - 3
        invariant ColumnFilled(hash, before, g, li, text, begin, j + 3)
      {
        var row := hash(GramAt(text, j)) % g.m;
        RowFits(row, g.m, g.words);
        TableIs(g.words, row);
        var i := row * g.words + li / 64;
        ColumnStep(hash, before, g, li, text, begin, j, row, i);
        g := g.(bits := SetBit(g.bits, i, li % 64));
        j := j + 1;
      }
    }
  }

  // ----- filling one block of the positional table -----

  /** Block `bi` gets the rows of the grams in [begin, end); no other bit changes. */
  ghost predicate BlockFilled(hash: Hash, before: seq<Word>, after: seq<Word>, d: PosDesc, bi: nat, text: seq<Byte>, begin: nat, end: int)
    requires end <= |text| && d.m > 0 && DescInside(d, |before|)
  {
    && |after| == |before|
    && (WordsInside(before, 8) ==> WordsInside(after, 8))
    && (forall i | 0 <= i < |after| && !(d.off <= i < d.off + Table(d.maskBytes, d.m)) :: after[i] == before[i])
    && forall row: nat, k: nat | row < d.m && k / 8 < d.maskBytes ::
         PosLit(after, d, row, k) <==> PosLit(before, d, row, k) || (k == bi && HasRow(hash, text, begin, end, d.m, row))
  }

  lemma BlockStep(hash: Hash, before: seq<Word>, pos: seq<Word>, d: PosDesc, bi: nat, text: seq<Byte>, begin: nat, j: nat, row: nat, i: nat)
    requires begin <= j && j + 4 <= |text| && d.m > 0 && DescInside(d, |before|) && bi / 8 < d.maskBytes
    requires BlockFilled(hash, before, pos, d, bi, text, begin, j + 3)
    requires row == hash(GramAt(text, j)) % d.m && i == d.off + Table(d.maskBytes, row) + bi / 8 && i < |pos|
    ensures BlockFilled(hash, before, SetBit(pos, i, bi % 8), d, bi, text, begin, j + 4)
  {
    var after := SetBit(pos, i, bi % 8);
    HasRowStep(hash, text, begin, j + 3, j + 4, d.m);
    RowFits(row, d.m, d.maskBytes);
    forall r: nat, k: nat | r < d.m && k / 8 < d.maskBytes
      ensures PosLit(after, d, r, k) <==> PosLit(before, d, r, k) || (k == bi && HasRow(hash, text, begin, j + 4, d.m, r))
    {
      LitSet(pos, d.off, d.m, d.maskBytes, row, bi / 8, bi % 8, r, k / 8, k % 8);
      assert PosLit(pos, d, r, k) <==> PosLit(before, d, r, k) || (k == bi && HasRow(hash, text, begin, j + 3, d.m, r));
    }
  }

  method FillBlock(hash: Hash, before: seq<Word>, d: PosDesc, bi: nat, text: seq<Byte>, begin: nat, end: nat) returns (pos: seq<Word>)
    requires end <= |text| && d.m > 0 && DescInside(d, |before|) && bi / 8 < d.maskBytes
    ensures BlockFilled(hash, before, pos, d, bi, text, begin, end)
  {
    pos := before;
    if end <= begin || end - begin < 4 {
      return;
    }
    var j := begin;
    while j + 4 <= end
      invariant begin <= j <= end - 3
      invariant BlockFilled(hash, before, pos, d, bi, text, begin, j + 3)
    {
      var row := hash(GramAt(text, j)) % d.m;
      RowFits(row, d.m, d.maskBytes);
      TableIs(d.maskBytes, row);
      var i := d.off + row * d.maskBytes + bi / 8;
      BlockStep(hash, before, pos, d, bi, text, begin, j, row, i);
      pos := SetBit(pos, i, bi % 8);
      j := j + 1;
    }
  }

  /** The largest row count the budget admits, from 64 up to 1024. */
  method ChooseRows(budget: nat, maskBytes: nat) returns (m: nat)
    ensures RowCount(m)
    ensures var want := Max(64, budget / Max(1, maskBytes)); m <= want && (m == 1024 || 2 * m > want)
  {
    var want := Max(64, budget / Max(1, maskBytes));
    m := 64;
    while m < 1024 && m * 2 <= want
      invariant RowCount(m) && m <= want
    {
      m := m * 2;
    }
  }

  // ----- planner statistics -----

  /** The distinct grams and the distinct buckets of a stretch of text. */
  method CollectGrams(hash: Hash, text: seq<Byte>, begin: nat, end: nat) returns (grams: set<Gram>, buckets: set<nat>)
    requires begin <= end <= |text|
    ensures grams == GramsIn(text, begin, end)
    ensures forall b: nat :: b in buckets <==> HasRow(hash, text, begin, end, BUCKETS, b)
  {
    grams, buckets := {}, {};
    if end - begin >= 4 {
      var j := begin;
      while j + 4 <= end
        invariant begin <= j <= end - 3
        invariant grams == GramsIn(text, begin, j + 3)
        invariant forall b: nat :: b in buckets <==> HasRow(hash, text, begin, j + 3, BUCKETS, b)
      {
        HasRowStep(hash, text, begin, j + 3, j + 4, BUCKETS);
        grams := grams + {GramAt(text, j)};
        buckets := buckets + {hash(GramAt(text, j)) % BUCKETS};
        j := j + 1;
      }
    }
  }

  function InChunks(was: GramStats, ids: seq<nat>): GramStats {
    was.(chunks := was.chunks + |ids|, chunkIds := was.chunkIds + ids)
  }

  function InDocuments(was: GramStats, ids: seq<nat>): GramStats {
    was.(documents := was.documents + |ids|, documentIds := was.documentIds + ids)
  }

  /** Chunk `ci` joins the list of each of its grams. */
  method CountGrams(before: map<Gram, GramStats>, grams: set<Gram>, ci: nat) returns (counts: map<Gram, GramStats>)
    ensures counts.Keys == before.Keys
    ensures forall g | g in before :: counts[g] == InChunks(before[g], if g in grams then [ci] else [])
  {
    counts := before;
    var todo := grams;
    while todo != {}
      invariant todo <= grams && counts.Keys == before.Keys
      invariant forall g | g in before :: counts[g] == InChunks(before[g], if g in grams && g !in todo then [ci] else [])
    {
      var g :| g in todo;
      todo := todo - {g};
      if g in counts {
        counts := counts[g := InChunks(counts[g], [ci])];
      }
    }
  }

  /** The chunk is added to the list of each bucket. */
  method PushBuckets(before: seq<seq<nat>>, frequency: seq<nat>, buckets: set<nat>, ci: nat) returns (lists: seq<seq<nat>>, counts: seq<nat>)
    requires |before| == |frequency| && forall b | b in buckets :: b < |before|
    ensures |lists| == |before| == |counts|
    ensures forall b | 0 <= b < |before| :: lists[b] == before[b] + (if b in buckets then [ci] else [])
    ensures forall b | 0 <= b < |before| :: counts[b] == frequency[b] + (if b in buckets then 1 else 0)
  {
    lists, counts := before, frequency;
    var todo := buckets;
    while todo != {}
      invariant todo <= buckets && |lists| == |before| == |counts|
      invariant forall b | 0 <= b < |before| :: lists[b] == before[b] + (if b in buckets && b !in todo then [ci] else [])
      invariant forall b | 0 <= b < |before| :: counts[b] == frequency[b] + (if b in buckets && b !in todo then 1 else 0)
    {
      var b :| b in todo;
      todo := todo - {b};
      lists := lists[b := lists[b] + [ci]];
      counts := counts[b := counts[b] + 1];
    }
  }

  /** File `fid` joins the list of each of its grams. */
  method CountDocument(before: map<Gram, GramStats>, grams: set<Gram>, fid: nat) returns (counts: map<Gram, GramStats>)
    ensures counts.Keys == before.Keys
    ensures forall g | g in before :: counts[g] == InDocuments(before[g], if g in grams then [fid] else [])
  {
    counts := before;
    var todo := grams;
    while todo != {}
      invariant todo <= grams && counts.Keys == before.Keys
      invariant forall g | g in before :: counts[g] == InDocuments(before[g], if g in grams && g !in todo then [fid] else [])
    {
      var g :| g in todo;
      todo := todo - {g};
      if g in counts {
        counts := counts[g := InDocuments(counts[g], [fid])];
      }
    }
  }

  /** What a table says of a gram; nothing yet for a new one. */
  function GramEntry(table: map<Gram, GramStats>, g: Gram): GramStats {
    if g in table then table[g] else GramStats(0, 0, [], 0, [])
  }

  ghost function Grown(was: GramStats, occurrences: nat, documents: seq<nat>): GramStats {
    InDocuments(was.(occurrences := was.occurrences + occurrences), documents)
  }

  /** The table counts the grams of the first `end` bytes on top of those before. */
  ghost predicate Scanned(before: map<Gram, GramStats>, table: map<Gram, GramStats>, text: seq<Byte>, end: int)
    requires end <= |text|
  {
    && table.Keys == before.Keys + GramsIn(text, 0, end)
    && forall g | g in table :: table[g] == Grown(GramEntry(before, g), Occurrences(text, g, end), [])
  }

  /** One more occurrence of the gram. */
  function Bumped(table: map<Gram, GramStats>, key: Gram): map<Gram, GramStats> {
    var e := GramEntry(table, key);
    table[key := e.(occurrences := e.occurrences + 1)]
  }

  lemma ScannedStep(before: map<Gram, GramStats>, table: map<Gram, GramStats>, text: seq<Byte>, j: nat)
    requires j + 4 <= |text| && Scanned(before, table, text, j + 3)
    ensures Scanned(before, Bumped(table, GramAt(text, j)), text, j + 4)
  {
    var key := GramAt(text, j);
    var more := Bumped(table, key);
    if key !in table { NoneBefore(text, key, j + 3); }
    assert more.Keys == table.Keys + {key};
    forall g | g in more ensures more[g] == Grown(GramEntry(before, g), Occurrences(text, g, j + 4), []) {
      assert Occurrences(text, g, j + 4) == Occurrences(text, g, j + 3) + (if key == g then 1 else 0);
    }
  }

  /** The table counts a whole file more. */
  ghost predicate FileAdded(before: map<Gram, GramStats>, table: map<Gram, GramStats>, text: seq<Byte>, fid: nat) {
    && table.Keys == before.Keys + GramsIn(text, 0, |text|)
    && forall g | g in table ::
         table[g] == Grown(GramEntry(before, g), Occurrences(text, g, |text|), if g in GramsIn(text, 0, |text|) then [fid] else [])
  }

  lemma {:induction false} GramsGrow(text: seq<Byte>, a: int, b: int)
    requires a <= b <= |text|
    ensures GramsIn(text, 0, a) <= GramsIn(text, 0, b)
    decreases b - a
  {
    if a < b { GramsGrow(text, a, b - 1); }
  }

  /** A gram that does not fit any more takes the file over the cap. */
  lemma OverCap(earlier: set<Gram>, table: set<Gram>, text: seq<Byte>, j: nat)
    requires j + 4 <= |text| && table == earlier + GramsIn(text, 0, j + 3) && |table| >= GRAM_CAP && GramAt(text, j) !in table
    ensures |earlier + GramsIn(text, 0, |text|)| > GRAM_CAP
  {
    var over := table + {GramAt(text, j)};
    GramsGrow(text, j + 4, |text|);
    assert over <= earlier + GramsIn(text, 0, |text|);
    SubsetSize(over, earlier + GramsIn(text, 0, |text|));
  }

  /** The table after the grams of the text, unless they take it over its cap. */
  method ScanGrams(before: map<Gram, GramStats>, text: seq<Byte>) returns (ok: bool, grams: map<Gram, GramStats>, document: set<Gram>)
    requires |before| <= GRAM_CAP && |text| >= 4
    ensures ok <==> |before.Keys + GramsIn(text, 0, |text|)| <= GRAM_CAP
    ensures ok ==> Scanned(before, grams, text, |text|) && document == GramsIn(text, 0, |text|)
  {
    ok, grams, document := true, before, {};
    ScannedNone(before, text);
    var j := 0;
    while ok && j + 4 <= |text|
      invariant j <= |text| - 3
      invariant ok ==> |grams| <= GRAM_CAP && document == GramsIn(text, 0, j + 3) && Scanned(before, grams, text, j + 3)
      invariant !ok ==> |before.Keys + GramsIn(text, 0, |text|)| > GRAM_CAP
      decreases ok, |text| - j
    {
      ok, grams, document := AddGram(before, text, j, grams, document);
      j := j + 1;
    }
    if ok { assert |grams| == |grams.Keys|; }
  }

  lemma ScannedNone(before: map<Gram, GramStats>, text: seq<Byte>)
    requires |text| >= 4
    ensures GramsIn(text, 0, 3) == {} && Scanned(before, before, text, 3)
  {
    assert before.Keys + {} == before.Keys;
  }

  /** One gram joins the table, unless it has no place left. */
  method AddGram(ghost before: map<Gram, GramStats>, text: seq<Byte>, j: nat, table: map<Gram, GramStats>, seen: set<Gram>)
    returns (ok: bool, grams: map<Gram, GramStats>, document: set<Gram>)
    requires j + 4 <= |text| && |table| <= GRAM_CAP && seen == GramsIn(text, 0, j + 3) && Scanned(before, table, text, j + 3)
    ensures ok ==> |grams| <= GRAM_CAP && document == GramsIn(text, 0, j + 4) && Scanned(before, grams, text, j + 4)
    ensures !ok ==> |before.Keys + GramsIn(text, 0, |text|)| > GRAM_CAP
  {
    var key := GramAt(text, j);
    ok := key in table || |table| < GRAM_CAP;
    grams, document := Bumped(table, key), seen + {key};
    if ok {
      ScannedStep(before, table, text, j);
      SizeAfter(table, key);
    } else {
      assert |table| == |table.Keys|;
      OverCap(before.Keys, table.Keys, text, j);
    }
  }

  /** Counting the file for each of its grams completes the table. */
  lemma DocumentCounted(before: map<Gram, GramStats>, scanned: map<Gram, GramStats>, table: map<Gram, GramStats>, text: seq<Byte>, fid: nat)
    requires Scanned(before, scanned, text, |text|) && table.Keys == scanned.Keys
    requires forall g | g in scanned :: table[g] == InDocuments(scanned[g], if g in GramsIn(text, 0, |text|) then [fid] else [])
    ensures FileAdded(before, table, text, fid)
  {
    forall g | g in table ensures table[g] == Grown(GramEntry(before, g), Occurrences(text, g, |text|), if g in GramsIn(text, 0, |text|) then [fid] else []) {
      InDocumentsOnce(GramEntry(before, g).(occurrences := GramEntry(before, g).occurrences + Occurrences(text, g, |text|)),
        if g in GramsIn(text, 0, |text|) then [fid] else []);
    }
  }

  lemma InDocumentsOnce(was: GramStats, ids: seq<nat>)
    ensures InDocuments(InDocuments(was, []), ids) == InDocuments(was, ids)
  {
    assert was.documentIds + [] == was.documentIds;
  }

  lemma ShortScanned(before: map<Gram, GramStats>, text: seq<Byte>)
    requires |text| < 4
    ensures GramsIn(text, 0, |text|) == {} && Scanned(before, before, text, |text|)
  {
    assert before.Keys + {} == before.Keys;
    forall g | g in before ensures before[g] == Grown(GramEntry(before, g), Occurrences(text, g, |text|), []) {
      assert before[g].documentIds + [] == before[g].documentIds;
    }
  }

  /** Every gram of the file gets an entry; it fails exactly when that takes the table
      over its cap. */
  method AddFileGrams(before: map<Gram, GramStats>, text: seq<Byte>, fid: nat) returns (ok: bool, grams: map<Gram, GramStats>)
    requires |before| <= GRAM_CAP
    ensures ok <==> |before.Keys + GramsIn(text, 0, |text|)| <= GRAM_CAP
    ensures ok ==> FileAdded(before, grams, text, fid)
  {
    ok, grams := true, before;
    var document: set<Gram> := {};
    if |text| >= 4 {
      ok, grams, document := ScanGrams(before, text);
    } else {
      ShortScanned(before, text);
      assert before.Keys + {} == before.Keys && |before.Keys| == |before|;
    }
    if ok {
      ghost var scanned := grams;
      grams := CountDocument(grams, document, fid);
      DocumentCounted(before, scanned, grams, text, fid);
    }
  }

  lemma SizeAfter(table: map<Gram, GramStats>, key: Gram)
    ensures |Bumped(table, key)| == |table| + (if key in table then 0 else 1)
  {
    assert Bumped(table, key).Keys == table.Keys + {key};
    assert |Bumped(table, key).Keys| == |Bumped(table, key)| && |table.Keys| == |table|;
  }

  lemma {:induction false} NoneBefore(text: seq<Byte>, g: Gram, end: int)
    requires end <= |text| && g !in GramsIn(text, 0, end)
    ensures Occurrences(text, g, end) == 0
    decreases end
  {
    if end >= 4 { NoneBefore(text, g, end - 1); }
  }

  /** What the first `n` files say of a gram, no chunk counted yet. */
  ghost function FileStats(files: seq<seq<Byte>>, g: Gram, n: nat): GramStats
    requires n <= |files|
  {
    GramStats(OccurrencesIn(files, g, n), 0, [], |DocumentsWith(files, g, n)|, DocumentsWith(files, g, n))
  }

  lemma {:induction false} Unseen(files: seq<seq<Byte>>, g: Gram, n: nat)
    requires n <= |files| && g !in CorpusGrams(files, n)
    ensures FileStats(files, g, n) == GramStats(0, 0, [], 0, [])
  {
    if n > 0 {
      Unseen(files, g, n - 1);
      NoneBefore(files[n - 1], g, |files[n - 1]|);
    }
  }

  lemma {:induction false} CorpusGrows(files: seq<seq<Byte>>, a: nat, b: nat)
    requires a <= b <= |files|
    ensures CorpusGrams(files, a) <= CorpusGrams(files, b)
    decreases b - a
  {
    if a < b { CorpusGrows(files, a, b - 1); }
  }

  /** The tables of all files, or none when their grams are more than the cap. */
  method CollectCorpus(files: seq<seq<Byte>>) returns (ok: bool, grams: map<Gram, GramStats>)
    ensures ok <==> |CorpusGrams(files, |files|)| <= GRAM_CAP
    ensures ok ==> Collected(files, grams, |files|)
  {
    ok, grams := true, map[];
    for fid := 0 to |files|
      invariant ok && |grams| <= GRAM_CAP && Collected(files, grams, fid)
    {
      ghost var was := grams;
      ok, grams := AddFileGrams(grams, files[fid], fid);
      CapReached(files, fid);
      if !ok {
        return;
      }
      CollectedStep(files, was, grams, fid);
      assert |grams| == |grams.Keys|;
    }
    assert |grams| == |grams.Keys|;
  }

  /** Later files only add grams. */
  lemma CapReached(files: seq<seq<Byte>>, n: nat)
    requires n < |files|
    ensures |CorpusGrams(files, n) + GramsIn(files[n], 0, |files[n]|)| <= |CorpusGrams(files, |files|)|
  {
    CorpusGrows(files, n + 1, |files|);
    SubsetSize(CorpusGrams(files, n + 1), CorpusGrams(files, |files|));
  }

  /** The table counts the first `n` files. */
  ghost predicate Collected(files: seq<seq<Byte>>, table: map<Gram, GramStats>, n: nat)
    requires n <= |files|
  {
    table.Keys == CorpusGrams(files, n) && forall g | g in table :: table[g] == FileStats(files, g, n)
  }

  lemma CollectedStep(files: seq<seq<Byte>>, before: map<Gram, GramStats>, table: map<Gram, GramStats>, n: nat)
    requires n < |files| && Collected(files, before, n) && FileAdded(before, table, files[n], n)
    ensures Collected(files, table, n + 1)
  {
    forall g | g in table ensures table[g] == FileStats(files, g, n + 1) {
      if g !in before { Unseen(files, g, n); }
    }
  }

  method CountChunks(hash: Hash, files: seq<seq<Byte>>, chunks: seq<Chunk>, grams: map<Gram, GramStats>)
    returns (counted: map<Gram, GramStats>, lists: seq<seq<nat>>, counts: seq<nat>)
    requires ChunksSound(files, chunks)
    ensures counted.Keys == grams.Keys && |lists| == BUCKETS == |counts|
    ensures forall g | g in counted :: counted[g] == InChunks(grams[g], ChunksWith(files, chunks, g, |chunks|))
    ensures forall b: nat | b < BUCKETS :: lists[b] == BucketList(hash, files, chunks, b, |chunks|)
    ensures forall b: nat | b < BUCKETS :: counts[b] == |BucketList(hash, files, chunks, b, |chunks|)|
  {
    counted := grams;
    lists, counts := seq(BUCKETS, _ => []), seq(BUCKETS, _ => 0);
    for ci := 0 to |chunks|
      invariant GramsCounted(files, chunks, grams, counted, ci) && BucketsCounted(hash, files, chunks, lists, counts, ci)
    {
      var c := chunks[ci];
      assert ChunkSound(files, c);
      var seen, buckets := CollectGrams(hash, files[c.file], c.coreBegin, c.extEnd);
      ghost var was, lists0, counts0 := counted, lists, counts;
      counted := CountGrams(counted, seen, ci);
      lists, counts := PushBuckets(lists, counts, buckets, ci);
      GramsCountedStep(files, chunks, grams, was, counted, ci);
      BucketsCountedStep(hash, files, chunks, lists0, counts0, lists, counts, buckets, ci);
    }
  }

  ghost predicate GramsCounted(files: seq<seq<Byte>>, chunks: seq<Chunk>, grams: map<Gram, GramStats>, counted: map<Gram, GramStats>, n: nat)
    requires n <= |chunks| && ChunksSound(files, chunks)
  {
    counted.Keys == grams.Keys && forall g | g in counted :: counted[g] == InChunks(grams[g], ChunksWith(files, chunks, g, n))
  }

  lemma GramsCountedStep(files: seq<seq<Byte>>, chunks: seq<Chunk>, grams: map<Gram, GramStats>, was: map<Gram, GramStats>,
      counted: map<Gram, GramStats>, ci: nat)
    requires ci < |chunks| && ChunksSound(files, chunks) && GramsCounted(files, chunks, grams, was, ci) && counted.Keys == was.Keys
    requires var c := chunks[ci];
      ChunkSound(files, c) && forall g | g in was :: counted[g] == InChunks(was[g], if g in GramsIn(files[c.file], c.coreBegin, c.extEnd) then [ci] else [])
    ensures GramsCounted(files, chunks, grams, counted, ci + 1)
  {
    forall g | g in counted ensures counted[g] == InChunks(grams[g], ChunksWith(files, chunks, g, ci + 1)) {
      var c := chunks[ci];
      InChunksTwice(grams[g], ChunksWith(files, chunks, g, ci), if g in GramsIn(files[c.file], c.coreBegin, c.extEnd) then [ci] else []);
    }
  }

  lemma InChunksTwice(was: GramStats, a: seq<nat>, b: seq<nat>)
    ensures InChunks(InChunks(was, a), b) == InChunks(was, a + b)
  {
    assert (was.chunkIds + a) + b == was.chunkIds + (a + b);
  }

  ghost predicate BucketsCounted(hash: Hash, files: seq<seq<Byte>>, chunks: seq<Chunk>, lists: seq<seq<nat>>, counts: seq<nat>, n: nat)
    requires n <= |chunks| && ChunksSound(files, chunks)
  {
    && |lists| == BUCKETS == |counts|
    && forall b: nat | b < BUCKETS :: lists[b] == BucketList(hash, files, chunks, b, n) && counts[b] == |lists[b]|
  }

  lemma BucketsCountedStep(hash: Hash, files: seq<seq<Byte>>, chunks: seq<Chunk>, was: seq<seq<nat>>, counts0: seq<nat>,
      lists: seq<seq<nat>>, counts: seq<nat>, buckets: set<nat>, ci: nat)
    requires ci < |chunks| && ChunksSound(files, chunks) && BucketsCounted(hash, files, chunks, was, counts0, ci)
    requires |lists| == BUCKETS == |counts| && forall b: nat :: b in buckets <==> b < BUCKETS && ChunkRow(hash, files, chunks[ci], BUCKETS, b)
    requires forall b: nat | b < BUCKETS :: lists[b] == was[b] + (if b in buckets then [ci] else [])
    requires forall b: nat | b < BUCKETS :: counts[b] == counts0[b] + (if b in buckets then 1 else 0)
    ensures BucketsCounted(hash, files, chunks, lists, counts, ci + 1)
  {}

  // ----- the index object -----

  /** The index under construction. `budget` is the positional budget for a core length:
      the length times the configured ratio, truncated. */
  class IndexData {
    const hash: Hash
    const budget: nat -> nat
    const options: Options
    const files: seq<seq<Byte>>
    const corpusBytes: nat
    var chunks: seq<Chunk>
    var groups: seq<Group>
    var posDesc: seq<PosDesc>
    var pos: seq<Word>
    var stats: Stats

    function View(): Index
      reads this
    {
      Index(options, files, chunks, groups, posDesc, pos, stats)
    }

    constructor (hash: Hash, budget: nat -> nat, options: Options, files: seq<seq<Byte>>, corpusBytes: nat)
      ensures this.hash == hash && this.budget == budget && this.options == options && this.files == files
      ensures this.corpusBytes == corpusBytes && chunks == []
    {
      this.hash, this.budget, this.options, this.files, this.corpusBytes := hash, budget, options, files, corpusBytes;
      chunks, groups, posDesc, pos := [], [], [], [];
      stats := Stats(false, map[], [], []);
    }

    /** Cores of `chunkBytes`, each read on into the next by the overlap. */
    method LayChunks()
      requires BuildOptions(options) && chunks == []
      modifies `chunks
      ensures Laid(View()) && ChunksSound(files, chunks)
    {
      ghost var sizes := Sizes(files);
      for fid := 0 to |files|
        invariant LaidUpTo(chunks, sizes, options, fid, 0)
      {
        var n := |files[fid]|;
        if n == 0 {
          LaySnoc(chunks, sizes, options, Chunk(fid, 0, 0, 0));
          chunks := chunks + [Chunk(fid, 0, 0, 0)];
        } else {
          var b := 0;
          while b < n
            invariant LaidUpTo(chunks, sizes, options, fid, Min(b, n))
          {
            var e := Min(n, b + options.chunkBytes);
            var x := Min(n, e + options.chunkOverlap);
            LaySnoc(chunks, sizes, options, Chunk(fid, b, e, x));
            chunks := chunks + [Chunk(fid, b, e, x)];
            b := b + options.chunkBytes;
          }
        }
        LaidNext(chunks, sizes, options, fid);
      }
      LaidAll(chunks, sizes, options);
      LaidSound(View());
    }

    method RebuildStats()
      requires ChunksSound(files, chunks)
      modifies `stats
      ensures StatsExact(hash, files, chunks, stats) && (stats.ready <==> WithinCaps(files, corpusBytes))
    {
      stats := Stats(false, map[], seq(BUCKETS, _ => []), seq(BUCKETS, _ => 0));
      if corpusBytes > CORPUS_CAP {
        return;
      }
      var ok, grams := CollectCorpus(files);
      if ok {
        var counted, lists, counts := CountChunks(hash, files, chunks, grams);
        stats := Stats(true, counted, lists, counts);
      }
    }

    /** The q-gram bitmaps: every group sized by its count, then one column per chunk. */
    method FillGroups()
      requires ChunksSound(files, chunks)
      modifies `groups
      ensures GroupsBuilt(hash, View()) && forall k | 0 <= k < 8 :: WordsInside(groups[k].bits, 64)
    {
      groups := EmptyGroups(hash, files, chunks);
      groups := AddChunks(hash, files, chunks, groups);
      GroupsDone(hash, View());
    }

    /** The positional layer: every chunk's table sized, then one bit column per block. */
    method FillPositional()
      requires BuildOptions(options) && ChunksSound(files, chunks)
      modifies `posDesc, `pos
      ensures PosBuilt(hash, View()) && WordsInside(pos, 8)
    {
      var total;
      posDesc, total := DescribeChunks(budget, files, chunks, options.blockBytes);
      pos := seq(total, _ => {});
      pos := FillTables(hash, files, chunks, options.blockBytes, pos, posDesc);
      TablesBuilt(hash, View());
    }

    /** Builds every derived structure over the files. */
    method Materialize()
      requires BuildOptions(options) && chunks == []
      modifies this
      ensures Built(hash, View()) && Narrow(View())
      ensures StatsExact(hash, files, chunks, stats) && (stats.ready <==> WithinCaps(files, corpusBytes))
    {
      LayChunks();
      RebuildStats();
      FillGroups();
      FillPositional();
    }
  }

  // ----- groups, column by column -----

  function EmptyGroup(lg: nat, words: nat): (g: Group)
    ensures |g.bits| == Table(words, RowsOf(lg))
  {
    TableIs(words, RowsOf(lg));
    Group(lg, RowsOf(lg), words, [], seq(RowsOf(lg) * words, _ => {}))
  }

  /** The group holds the columns of the first `n` chunks. */
  ghost predicate GroupAfter(hash: Hash, files: seq<seq<Byte>>, chunks: seq<Chunk>, g: Group, lg: nat, n: nat)
    requires n <= |chunks| && ChunksSound(files, chunks)
  {
    && g.lg == lg && g.gids == GidsOf(chunks, lg, n) && Roomy(g, chunks) && WordsInside(g.bits, 64)
    && g.words == WordsFor(|GidsOf(chunks, lg, |chunks|)|)
    && GroupExact(hash, files, chunks, g)
  }

  lemma {:induction false} GidsGrow(chunks: seq<Chunk>, lg: nat, n: nat)
    requires n <= |chunks|
    ensures |GidsOf(chunks, lg, n)| <= |GidsOf(chunks, lg, |chunks|)|
    ensures n < |chunks| && ClassOf(chunks[n]) == lg ==> |GidsOf(chunks, lg, n)| < |GidsOf(chunks, lg, |chunks|)|
    decreases |chunks| - n
  {
    if n < |chunks| { GidsGrow(chunks, lg, n + 1); }
  }

  lemma EmptyExact(hash: Hash, files: seq<seq<Byte>>, chunks: seq<Chunk>, lg: nat, words: nat)
    requires ChunksSound(files, chunks) && words == WordsFor(|GidsOf(chunks, lg, |chunks|)|)
    ensures GroupAfter(hash, files, chunks, EmptyGroup(lg, words), lg, 0)
  {
    var g := EmptyGroup(lg, words);
    assert |g.gids| == 0;
    forall row: nat, li: nat | row < g.m && li / 64 < g.words ensures !GroupLit(g, row, li) {
      RowFits(row, g.m, g.words);
    }
  }

  lemma ColumnAdded(hash: Hash, files: seq<seq<Byte>>, chunks: seq<Chunk>, g: Group, filled: Group, lg: nat, ci: nat)
    requires ChunksSound(files, chunks) && ci < |chunks| && ClassOf(chunks[ci]) == lg
    requires GroupAfter(hash, files, chunks, g, lg, ci)
    requires ColumnFilled(hash, g.(gids := g.gids + [ci]), filled, |g.gids|, files[chunks[ci].file], chunks[ci].coreBegin, chunks[ci].extEnd)
    ensures GroupAfter(hash, files, chunks, filled, lg, ci + 1)
  {
    var before := g.(gids := g.gids + [ci]);
    GidsGrow(chunks, lg, ci + 1);
    forall row: nat, li: nat | row < g.m && li / 64 < g.words
      ensures GroupLit(filled, row, li) <==> li < |filled.gids| && ChunkRow(hash, files, chunks[filled.gids[li]], g.m, row)
    {
      assert GroupLit(before, row, li) <==> GroupLit(g, row, li);
    }
  }

  ghost predicate GroupsAfter(hash: Hash, files: seq<seq<Byte>>, chunks: seq<Chunk>, groups: seq<Group>, n: nat)
    requires n <= |chunks| && ChunksSound(files, chunks)
  {
    |groups| == 8 && forall k: nat | k < 8 :: GroupAfter(hash, files, chunks, groups[k], k + FIRST_LG, n)
  }

  method EmptyGroups(ghost hash: Hash, ghost files: seq<seq<Byte>>, chunks: seq<Chunk>) returns (groups: seq<Group>)
    requires ChunksSound(files, chunks)
    ensures GroupsAfter(hash, files, chunks, groups, 0)
    ensures forall k | 0 <= k < 8 :: groups[k].gids == []
  {
    var count: seq<nat> := seq(8, _ => 0);
    for ci := 0 to |chunks|
      invariant |count| == 8
      invariant forall k: nat | k < 8 :: count[k] == |GidsOf(chunks, k + FIRST_LG, ci)|
    {
      var lg := ComputeLg(chunks[ci].Length());
      count := count[lg - FIRST_LG := count[lg - FIRST_LG] + 1];
    }
    groups := [];
    for k := 0 to 8
      invariant |groups| == k && forall i: nat | i < k :: GroupAfter(hash, files, chunks, groups[i], i + FIRST_LG, 0) && groups[i].gids == []
    {
      EmptyExact(hash, files, chunks, k + FIRST_LG, WordsFor(count[k]));
      groups := groups + [EmptyGroup(k + FIRST_LG, WordsFor(count[k]))];
    }
  }

  /** Chunk `ci` takes the next column of the group of its class. */
  method AddColumn(hash: Hash, files: seq<seq<Byte>>, chunks: seq<Chunk>, g: Group, li: nat, ci: nat) returns (filled: Group)
    requires ChunksSound(files, chunks) && ci < |chunks| && li == |g.gids|
    requires GroupAfter(hash, files, chunks, g, ClassOf(chunks[ci]), ci)
    ensures GroupAfter(hash, files, chunks, filled, ClassOf(chunks[ci]), ci + 1) && |filled.gids| == li + 1
  {
    var c := chunks[ci];
    assert ChunkSound(files, c);
    GidsGrow(chunks, ClassOf(c), ci);
    filled := FillColumn(hash, g.(gids := g.gids + [ci]), li, files[c.file], c.coreBegin, c.extEnd);
    ColumnAdded(hash, files, chunks, g, filled, ClassOf(c), ci);
  }

  /** The groups of other classes stand unchanged. */
  lemma GroupsKeep(hash: Hash, files: seq<seq<Byte>>, chunks: seq<Chunk>, groups: seq<Group>, filled: Group, ci: nat)
    requires ChunksSound(files, chunks) && ci < |chunks| && GroupsAfter(hash, files, chunks, groups, ci)
    requires GroupAfter(hash, files, chunks, filled, ClassOf(chunks[ci]), ci + 1)
    ensures GroupsAfter(hash, files, chunks, groups[ClassOf(chunks[ci]) - FIRST_LG := filled], ci + 1)
  {
    forall k: nat | k < 8 && k + FIRST_LG != ClassOf(chunks[ci])
      ensures GroupAfter(hash, files, chunks, groups[k], k + FIRST_LG, ci + 1)
    {
      assert GroupAfter(hash, files, chunks, groups[k], k + FIRST_LG, ci);
    }
  }

  predicate Counted(groups: seq<Group>, local: seq<nat>) {
    |groups| == 8 == |local| && forall k | 0 <= k < 8 :: local[k] == |groups[k].gids|
  }

  method AddChunk(hash: Hash, files: seq<seq<Byte>>, chunks: seq<Chunk>, before: seq<Group>, counts: seq<nat>, ci: nat)
    returns (groups: seq<Group>, local: seq<nat>)
    requires ChunksSound(files, chunks) && ci < |chunks| && GroupsAfter(hash, files, chunks, before, ci) && Counted(before, counts)
    ensures GroupsAfter(hash, files, chunks, groups, ci + 1) && Counted(groups, local)
  {
    var lg := ComputeLg(chunks[ci].Length());
    var li := counts[lg - FIRST_LG];
    var filled := AddColumn(hash, files, chunks, before[lg - FIRST_LG], li, ci);
    GroupsKeep(hash, files, chunks, before, filled, ci);
    groups := before[lg - FIRST_LG := filled];
    local := counts[lg - FIRST_LG := li + 1];
  }

  /** One column per chunk, in order. */
  method AddChunks(hash: Hash, files: seq<seq<Byte>>, chunks: seq<Chunk>, before: seq<Group>) returns (groups: seq<Group>)
    requires ChunksSound(files, chunks) && GroupsAfter(hash, files, chunks, before, 0) && forall k | 0 <= k < 8 :: before[k].gids == []
    ensures GroupsAfter(hash, files, chunks, groups, |chunks|)
  {
    groups := before;
    var local: seq<nat> := seq(8, _ => 0);
    for ci := 0 to |chunks|
      invariant GroupsAfter(hash, files, chunks, groups, ci) && Counted(groups, local)
    {
      groups, local := AddChunk(hash, files, chunks, groups, local, ci);
    }
  }

  lemma GroupsDone(hash: Hash, x: Index)
    requires ChunksSound(x.files, x.chunks) && GroupsAfter(hash, x.files, x.chunks, x.groups, |x.chunks|)
    ensures GroupsBuilt(hash, x) && forall k | 0 <= k < 8 :: WordsInside(x.groups[k].bits, 64)
  {
    forall k: nat | k < 8
      ensures WordsInside(x.groups[k].bits, 64)
      ensures x.groups[k].lg == k + FIRST_LG && Shaped(x.groups[k], x.chunks)
      ensures x.groups[k].gids == GidsOf(x.chunks, k + FIRST_LG, |x.chunks|)
      ensures GroupExact(hash, x.files, x.chunks, x.groups[k])
    {
      assert GroupAfter(hash, x.files, x.chunks, x.groups[k], k + FIRST_LG, |x.chunks|);
    }
  }

  // ----- positional tables, block by block -----

  lemma PosEndSnoc(descs: seq<PosDesc>, d: PosDesc)
    ensures forall k: nat | k <= |descs| :: PosEnd(descs + [d], k) == PosEnd(descs, k)
  {
    forall k: nat | k <= |descs| ensures PosEnd(descs + [d], k) == PosEnd(descs, k) { PosEndPrefix(descs, d, k); }
  }

  lemma {:induction false} PosEndPrefix(descs: seq<PosDesc>, d: PosDesc, k: nat)
    requires k <= |descs|
    ensures PosEnd(descs + [d], k) == PosEnd(descs, k)
  {
    if k > 0 {
      PosEndPrefix(descs, d, k - 1);
      assert (descs + [d])[k - 1] == descs[k - 1];
    }
  }

  ghost predicate ChunkFilled(hash: Hash, files: seq<seq<Byte>>, c: Chunk, blockBytes: nat, pos: seq<Word>, d: PosDesc) {
    ChunkSound(files, c) && DescInside(d, |pos|) && PosExact(hash, files, c, blockBytes, pos, d)
  }

  lemma ChunkFrame(hash: Hash, files: seq<seq<Byte>>, c: Chunk, blockBytes: nat, before: seq<Word>, after: seq<Word>, d: PosDesc)
    requires ChunkFilled(hash, files, c, blockBytes, before, d) && |after| == |before|
    requires forall i | d.off <= i < d.off + Table(d.maskBytes, d.m) :: after[i] == before[i]
    ensures ChunkFilled(hash, files, c, blockBytes, after, d)
  {
    forall row: nat, bi: nat | row < d.m && bi / 8 < d.maskBytes ensures PosLit(after, d, row, bi) <==> PosLit(before, d, row, bi) {
      RowFits(row, d.m, d.maskBytes);
    }
  }

  /** The blocks before `n` have their bits, the others none. */
  ghost predicate BlocksUpTo(hash: Hash, files: seq<seq<Byte>>, c: Chunk, blockBytes: nat, pos: seq<Word>, d: PosDesc, n: nat)
    requires ChunkSound(files, c) && DescInside(d, |pos|)
  {
    forall row: nat, bi: nat | row < d.m && bi / 8 < d.maskBytes ::
      PosLit(pos, d, row, bi) <==> bi < n && BlockRow(hash, files, c, blockBytes, bi, d.m, row)
  }

  method FillChunk(hash: Hash, files: seq<seq<Byte>>, c: Chunk, blockBytes: nat, before: seq<Word>, d: PosDesc) returns (pos: seq<Word>)
    requires ChunkSound(files, c) && blockBytes > 0 && DescFits(d, c, blockBytes) && DescInside(d, |before|)
    requires forall i | d.off <= i < d.off + Table(d.maskBytes, d.m) :: before[i] == {}
    ensures |pos| == |before| && ChunkFilled(hash, files, c, blockBytes, pos, d)
    ensures WordsInside(before, 8) ==> WordsInside(pos, 8)
    ensures forall i | 0 <= i < |pos| && !(d.off <= i < d.off + Table(d.maskBytes, d.m)) :: pos[i] == before[i]
  {
    pos := before;
    NothingLit(hash, files, c, blockBytes, pos, d);
    for bi := 0 to d.blocks
      invariant |pos| == |before| && BlocksUpTo(hash, files, c, blockBytes, pos, d, bi)
      invariant WordsInside(before, 8) ==> WordsInside(pos, 8)
      invariant forall i | 0 <= i < |pos| && !(d.off <= i < d.off + Table(d.maskBytes, d.m)) :: pos[i] == before[i]
    {
      ghost var was := pos;
      TableIs(blockBytes, bi);
      var rb := bi * blockBytes;
      if rb < c.Length() {
        var re := Min(c.Length(), rb + blockBytes + PADDING);
        pos := FillBlock(hash, pos, d, bi, files[c.file], c.coreBegin + rb, c.coreBegin + re);
      }
      BlocksStep(hash, files, c, blockBytes, was, pos, d, bi);
    }
  }

  lemma NothingLit(hash: Hash, files: seq<seq<Byte>>, c: Chunk, blockBytes: nat, pos: seq<Word>, d: PosDesc)
    requires ChunkSound(files, c) && DescInside(d, |pos|)
    requires forall i | d.off <= i < d.off + Table(d.maskBytes, d.m) :: pos[i] == {}
    ensures BlocksUpTo(hash, files, c, blockBytes, pos, d, 0)
  {
    forall row: nat, bi: nat | row < d.m && bi / 8 < d.maskBytes ensures !PosLit(pos, d, row, bi) {
      RowFits(row, d.m, d.maskBytes);
    }
  }

  lemma BlocksStep(hash: Hash, files: seq<seq<Byte>>, c: Chunk, blockBytes: nat, before: seq<Word>, pos: seq<Word>, d: PosDesc, bi: nat)
    requires ChunkSound(files, c) && DescInside(d, |before|) && d.m > 0 && |pos| == |before|
    requires BlocksUpTo(hash, files, c, blockBytes, before, d, bi)
    requires
      if Table(blockBytes, bi) < c.Length() then
        BlockFilled(hash, before, pos, d, bi, files[c.file], BlockBegin(c, blockBytes, bi), BlockEnd(c, blockBytes, bi))
      else pos == before
    ensures BlocksUpTo(hash, files, c, blockBytes, pos, d, bi + 1)
  {
    forall row: nat, k: nat | row < d.m && k / 8 < d.maskBytes
      ensures PosLit(pos, d, row, k) <==> k < bi + 1 && BlockRow(hash, files, c, blockBytes, k, d.m, row)
    {
      assert PosLit(before, d, row, k) <==> k < bi && BlockRow(hash, files, c, blockBytes, k, d.m, row);
      if Table(blockBytes, bi) < c.Length() {
        assert PosLit(pos, d, row, k) <==> PosLit(before, d, row, k) || (k == bi && BlockRow(hash, files, c, blockBytes, bi, d.m, row));
      } else {
        assert !BlockRow(hash, files, c, blockBytes, bi, d.m, row);
      }
    }
  }

  predicate DescAt(descs: seq<PosDesc>, chunks: seq<Chunk>, blockBytes: nat, k: nat)
    requires blockBytes > 0 && k < |descs| <= |chunks|
  {
    chunks[k].coreBegin <= chunks[k].coreEnd && DescFits(descs[k], chunks[k], blockBytes) && descs[k].off == PosEnd(descs, k)
  }

  /** Descriptors of the first chunks, one after the other. */
  ghost predicate Described(descs: seq<PosDesc>, chunks: seq<Chunk>, blockBytes: nat)
    requires blockBytes > 0 && |descs| <= |chunks|
  {
    forall k | 0 <= k < |descs| :: DescAt(descs, chunks, blockBytes, k)
  }

  lemma DescribedSnoc(descs: seq<PosDesc>, chunks: seq<Chunk>, blockBytes: nat, d: PosDesc)
    requires blockBytes > 0 && |descs| < |chunks| && Described(descs, chunks, blockBytes)
    requires var c := chunks[|descs|]; c.coreBegin <= c.coreEnd && DescFits(d, c, blockBytes) && d.off == PosEnd(descs, |descs|)
    ensures Described(descs + [d], chunks, blockBytes)
    ensures PosEnd(descs + [d], |descs + [d]|) == d.off + Table(d.maskBytes, d.m)
  {
    PosEndSnoc(descs, d);
    forall k: nat | k < |descs| ensures DescAt(descs + [d], chunks, blockBytes, k) {
      assert DescAt(descs, chunks, blockBytes, k);
      assert (descs + [d])[k] == descs[k];
    }
    assert DescAt(descs + [d], chunks, blockBytes, |descs|);
  }

  method DescribeChunks(budget: nat -> nat, ghost files: seq<seq<Byte>>, chunks: seq<Chunk>, blockBytes: nat) returns (descs: seq<PosDesc>, total: nat)
    requires ChunksSound(files, chunks) && blockBytes > 0
    ensures Tiled(descs, chunks, blockBytes, total)
  {
    descs, total := [], 0;
    for ci := 0 to |chunks|
      invariant |descs| == ci && total == PosEnd(descs, ci) && Described(descs, chunks, blockBytes)
    {
      assert ChunkSound(files, chunks[ci]);
      var d := DescribeChunk(budget, chunks[ci], blockBytes, total);
      DescribedSnoc(descs, chunks, blockBytes, d);
      TableIs(d.maskBytes, d.m);
      descs := descs + [d];
      total := total + d.m * d.maskBytes;
    }
    DescribedTiled(descs, chunks, blockBytes, total);
  }

  lemma DescribedTiled(descs: seq<PosDesc>, chunks: seq<Chunk>, blockBytes: nat, total: nat)
    requires blockBytes > 0 && |descs| == |chunks| && Described(descs, chunks, blockBytes) && total == PosEnd(descs, |descs|)
    ensures Tiled(descs, chunks, blockBytes, total)
  {
    forall k | 0 <= k < |descs|
      ensures chunks[k].coreBegin <= chunks[k].coreEnd && DescFits(descs[k], chunks[k], blockBytes) && descs[k].off == PosEnd(descs, k)
    {
      assert DescAt(descs, chunks, blockBytes, k);
    }
  }

  method DescribeChunk(budget: nat -> nat, c: Chunk, blockBytes: nat, off: nat) returns (d: PosDesc)
    requires blockBytes > 0 && c.coreBegin <= c.coreEnd
    ensures DescFits(d, c, blockBytes) && d.off == off
  {
    var coreLength := c.coreEnd - c.coreBegin;
    var blocks := Max(1, (coreLength + blockBytes - 1) / blockBytes);
    PiecesIs(coreLength, blockBytes);
    var maskBytes := (blocks + 7) / 8;
    var m := ChooseRows(budget(coreLength), maskBytes);
    d := PosDesc(off, m, maskBytes, blocks);
  }

  /** The tables of the first `n` chunks are filled, the rest is zero. */
  ghost predicate PosAfter(hash: Hash, files: seq<seq<Byte>>, chunks: seq<Chunk>, blockBytes: nat, pos: seq<Word>, descs: seq<PosDesc>, n: nat)
    requires n <= |chunks| == |descs|
  {
    && (forall k | 0 <= k < n :: ChunkFilled(hash, files, chunks[k], blockBytes, pos, descs[k]))
    && forall i | PosEnd(descs, n) <= i < |pos| :: pos[i] == {}
  }

  lemma PosStep(hash: Hash, files: seq<seq<Byte>>, chunks: seq<Chunk>, blockBytes: nat, before: seq<Word>, pos: seq<Word>, descs: seq<PosDesc>, ci: nat)
    requires blockBytes > 0 && ci < |chunks| && |pos| == |before|
    requires Tiled(descs, chunks, blockBytes, |pos|) && PosAfter(hash, files, chunks, blockBytes, before, descs, ci)
    requires ChunkFilled(hash, files, chunks[ci], blockBytes, pos, descs[ci])
    requires SameOutside(before, pos, descs[ci].off, descs[ci].off + Table(descs[ci].maskBytes, descs[ci].m))
    ensures PosAfter(hash, files, chunks, blockBytes, pos, descs, ci + 1)
  {
    forall k | 0 <= k < ci ensures ChunkFilled(hash, files, chunks[k], blockBytes, pos, descs[k]) {
      EarlierKept(descs, before, pos, k, ci);
      ChunkFrame(hash, files, chunks[k], blockBytes, before, pos, descs[k]);
    }
  }

  /** What changes in the range of one chunk leaves the range of an earlier one. */
  lemma EarlierKept(descs: seq<PosDesc>, before: seq<Word>, pos: seq<Word>, k: nat, ci: nat)
    requires k < ci < |descs| && descs[k].off == PosEnd(descs, k) && descs[ci].off == PosEnd(descs, ci) <= |pos| == |before|
    requires SameOutside(before, pos, descs[ci].off, descs[ci].off + Table(descs[ci].maskBytes, descs[ci].m))
    ensures DescInside(descs[k], |pos|)
    ensures forall i | descs[k].off <= i < descs[k].off + Table(descs[k].maskBytes, descs[k].m) :: pos[i] == before[i]
  {
    PosEndGrows(descs, k + 1, ci);
  }

  ghost predicate SameOutside(before: seq<Word>, pos: seq<Word>, begin: int, end: int) {
    |pos| == |before| && forall i | 0 <= i < |pos| && !(begin <= i < end) :: pos[i] == before[i]
  }

  method FillTables(hash: Hash, files: seq<seq<Byte>>, chunks: seq<Chunk>, blockBytes: nat, before: seq<Word>, descs: seq<PosDesc>) returns (pos: seq<Word>)
    requires ChunksSound(files, chunks) && blockBytes > 0 && Tiled(descs, chunks, blockBytes, |before|) && forall i | 0 <= i < |before| :: before[i] == {}
    ensures |pos| == |before| && PosAfter(hash, files, chunks, blockBytes, pos, descs, |chunks|) && WordsInside(pos, 8)
  {
    pos := before;
    for ci := 0 to |chunks|
      invariant |pos| == |before| && WordsInside(pos, 8)
      invariant PosAfter(hash, files, chunks, blockBytes, pos, descs, ci)
    {
      ghost var was := pos;
      TileInside(descs, chunks, blockBytes, |pos|, ci);
      pos := FillChunk(hash, files, chunks[ci], blockBytes, pos, descs[ci]);
      PosStep(hash, files, chunks, blockBytes, was, pos, descs, ci);
    }
  }

  lemma TablesBuilt(hash: Hash, x: Index)
    requires ChunksSound(x.files, x.chunks) && x.options.blockBytes > 0 && Tiled(x.posDesc, x.chunks, x.options.blockBytes, |x.pos|)
    requires PosAfter(hash, x.files, x.chunks, x.options.blockBytes, x.pos, x.posDesc, |x.chunks|)
    ensures PosBuilt(hash, x)
  {
    forall ci | 0 <= ci < |x.chunks|
      ensures DescInside(x.posDesc[ci], |x.pos|) && PosExact(hash, x.files, x.chunks[ci], x.options.blockBytes, x.pos, x.posDesc[ci])
    {
      assert ChunkFilled(hash, x.files, x.chunks[ci], x.options.blockBytes, x.pos, x.posDesc[ci]);
    }
  }
}
