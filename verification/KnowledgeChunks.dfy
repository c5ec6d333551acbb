/** Cutting articles into chunks, and embedding them in batches. */
module KnowledgeChunks {
  /** ". " stands at `i`. */
  predicate SentenceEnd(s: string, i: int) {
    0 <= i < |s| - 1 && s[i] == '.' && s[i + 1] == ' '
  }

  /** strings.LastIndex(s, ". ") */
  function LastIndex(s: string): (r: int)
    ensures r == -1 || SentenceEnd(s, r)
    ensures forall i :: r < i ==> !SentenceEnd(s, i)
  {
    if |s| < 2 then -1
    else if s[|s| - 2] == '.' && s[|s| - 1] == ' ' then |s| - 2
    else
      var r := LastIndex(s[..|s| - 1]);
      assert forall i :: i < |s| - 2 ==> (SentenceEnd(s, i) <==> SentenceEnd(s[..|s| - 1], i));
      r
  }

  /** Where the chunk that begins at `start` ends. */
  function ChunkEnd(text: string, max: nat, start: nat): (end: nat)
    requires max >= 1 && start < |text|
    ensures start < end <= |text| && end - start <= max
    ensures end == |text| || end - start > max / 2
    ensures start + max >= |text| ==> end == |text|
  {
    if start + max >= |text| then |text|
    else
      var lastPeriod := LastIndex(text[start..start + max]);
      if lastPeriod > max / 2 then start + lastPeriod + 2 else start + max
  }

  /** A chunk that is not the last ends with the last ". " of its window, if one stands in the window's second half. */
  lemma ChunksEndAtSentences(text: string, max: nat, start: nat, i: nat)
    requires max >= 1 && start + max < |text|
    requires max / 2 < i && i + 1 < max && text[start + i] == '.' && text[start + i + 1] == ' '
    ensures var end := ChunkEnd(text, max, start);
            && start + i + 2 <= end <= start + max && text[end - 2] == '.' && text[end - 1] == ' '
            && forall j :: end - 2 < j < start + max - 1 ==> !(text[j] == '.' && text[j + 1] == ' ')
  {
    var window := text[start..start + max];
    assert SentenceEnd(window, i);
    var last := LastIndex(window);
    assert window[last] == text[start + last] && window[last + 1] == text[start + last + 1];
    forall j | start + last < j < start + max - 1 ensures !(text[j] == '.' && text[j + 1] == ' ') {
      assert !SentenceEnd(window, j - start);
    }
  }

  /** If none stands there, the chunk has the full length. */
  lemma ChunksEndAtTheLimit(text: string, max: nat, start: nat)
    requires max >= 1 && start + max < |text|
    requires forall j :: start + max / 2 < j < start + max - 1 ==> !(text[j] == '.' && text[j + 1] == ' ')
    ensures ChunkEnd(text, max, start) == start + max
  {
    var window := text[start..start + max];
    var last := LastIndex(window);
    if last >= 0 {
      var j := start + last;
      assert window[last] == text[j] && window[last + 1] == text[j + 1];
    }
  }

  // ---- the loop as written ----

  /** `start` at the top of each iteration of the written loop, for any overlap; a start outside the text is where the
      loop stops: normally at or past the end, with a failing slice before the beginning. */
  function StartAt(text: string, max: nat, overlap: int, k: nat): (start: int)
    requires max >= 1
  {
    if k == 0 then 0
    else
      var before := StartAt(text, max, overlap, k - 1);
      if 0 <= before < |text| then ChunkEnd(text, max, before) - overlap else before
  }

  /** Without overlap every iteration gets further. */
  lemma {:induction false} Progress(text: string, max: nat, overlap: int, k: nat)
    requires max >= 1 && overlap <= 0
    ensures StartAt(text, max, overlap, k) >= k || StartAt(text, max, overlap, k) >= |text|
    decreases k
  {
    if k > 0 { Progress(text, max, overlap, k - 1); }
  }

  /** With overlap, of whatever size, no iteration gets past `len - overlap`. */
  lemma {:induction false} NeverAtTheEnd(text: string, max: nat, overlap: int, k: nat)
    requires max >= 1 && overlap > 0 && text != ""
    ensures k == 0 || StartAt(text, max, overlap, k) <= |text| - overlap
    ensures StartAt(text, max, overlap, k) < |text|
    decreases k
  {
    if k > 0 { NeverAtTheEnd(text, max, overlap, k - 1); }
  }

  /** On a longer text the loop ends exactly when there is no overlap, whatever the overlap's size. */
  lemma LoopEndsExactlyWithoutOverlap(text: string, max: nat, overlap: int)
    requires max >= 1 && |text| > max
    ensures (exists k: nat :: StartAt(text, max, overlap, k) >= |text|) <==> overlap <= 0
  {
    if overlap <= 0 {
      Progress(text, max, overlap, |text|);
    } else {
      forall k: nat ensures StartAt(text, max, overlap, k) < |text| { NeverAtTheEnd(text, max, overlap, k); }
    }
  }

  lemma {:induction false} CreepsToTheEnd(text: string, max: nat, overlap: nat, k: nat)
    requires max >= 1 && 0 < overlap <= max / 2 && |text| > max
    ensures 0 <= StartAt(text, max, overlap, k) < |text|
    ensures StartAt(text, max, overlap, k) >= k || StartAt(text, max, overlap, k) == |text| - overlap
    decreases k
  {
    if k > 0 { CreepsToTheEnd(text, max, overlap, k - 1); }
  }

  /** With an overlap of at most half a chunk it stays at `len - overlap` for ever. */
  lemma StuckBeforeTheEnd(text: string, max: nat, overlap: nat, k: nat)
    requires max >= 1 && 0 < overlap <= max / 2 && |text| > max && k >= |text|
    ensures StartAt(text, max, overlap, k) == |text| - overlap
  {
    CreepsToTheEnd(text, max, overlap, k);
  }

  // ---- the chunks ----

  /** Chunk `i` begins `overlap` characters before the one before it ended. */
  function Begin(cuts: seq<int>, overlap: nat, i: nat): int
    requires i <= |cuts|
  {
    if i == 0 then 0 else cuts[i - 1] - overlap
  }

  /** Chunk `i` is the text from its beginning to `cuts[i]`, the end the text calls for. */
  ghost predicate IsChunk(text: string, max: nat, overlap: nat, cuts: seq<int>, chunks: seq<string>, i: nat)
    requires max >= 1 && i < |cuts| == |chunks|
  {
    var start := Begin(cuts, overlap, i);
    0 <= start < |text| && cuts[i] == ChunkEnd(text, max, start) && chunks[i] == text[start..cuts[i]]
  }

  ghost predicate AreChunks(text: string, max: nat, overlap: nat, cuts: seq<int>, chunks: seq<string>)
    requires max >= 1
  {
    |cuts| == |chunks| && forall i: nat :: i < |chunks| ==> IsChunk(text, max, overlap, cuts, chunks, i)
  }

  /** Only the last chunk reaches the end of the text. */
  ghost predicate Complete(text: string, cuts: seq<int>) {
    && cuts != [] && cuts[|cuts| - 1] == |text|
    && forall i :: 0 <= i < |cuts| - 1 ==> cuts[i] < |text|
  }

  lemma OneMoreChunk(text: string, max: nat, overlap: nat, cuts: seq<int>, chunks: seq<string>, start: nat)
    requires max >= 1 && overlap <= max / 2 && AreChunks(text, max, overlap, cuts, chunks)
    requires start == Begin(cuts, overlap, |cuts|) && start < |text|
    ensures var end := ChunkEnd(text, max, start);
            AreChunks(text, max, overlap, cuts + [end], chunks + [text[start..end]])
  {
    var end := ChunkEnd(text, max, start);
    var cuts', chunks' := cuts + [end], chunks + [text[start..end]];
    forall i: nat | i < |chunks'| ensures IsChunk(text, max, overlap, cuts', chunks', i) {
      assert Begin(cuts', overlap, i) == Begin(cuts, overlap, i);
      if i < |chunks| { assert IsChunk(text, max, overlap, cuts, chunks, i); }
    }
  }

  /** As written. The precondition is exactly when its loop ends (LoopEndsExactlyWithoutOverlap). */
  method ChunkText(text: string, max: nat, overlap: nat) returns (chunks: seq<string>, ghost cuts: seq<int>)
    requires |text| <= max || (max >= 1 && overlap == 0)
    ensures |text| <= max ==> chunks == [text]
    ensures |text| > max ==> AreChunks(text, max, overlap, cuts, chunks) && Complete(text, cuts)
  {
    cuts := [];
    if |text| <= max { return [text], cuts; }
    chunks := [];
    var start := 0;
    while start < |text|
      invariant 0 <= start == Begin(cuts, overlap, |cuts|) <= |text|
      invariant AreChunks(text, max, overlap, cuts, chunks)
      invariant if start < |text| then forall i :: 0 <= i < |cuts| ==> cuts[i] < |text| else Complete(text, cuts)
    {
      var end := start + max;
      if end > |text| { end := |text|; }
      if end < |text| {
        var lastPeriod := LastIndex(text[start..end]);
        if lastPeriod > max / 2 { end := start + lastPeriod + 2; }
      }
      assert end == ChunkEnd(text, max, start);
      OneMoreChunk(text, max, overlap, cuts, chunks, start);
      cuts := cuts + [end];
      chunks := chunks + [text[start..end]];
      start := end - overlap;
      if start >= |text| { break; }
    }
  }

  /** Corrected: stop at the chunk that reaches the end. */
  method ChunkTextCorrected(text: string, max: nat, overlap: nat) returns (chunks: seq<string>, ghost cuts: seq<int>)
    requires max >= 1 && overlap <= max / 2
    ensures |text| <= max ==> chunks == [text]
    ensures |text| > max ==> AreChunks(text, max, overlap, cuts, chunks) && Complete(text, cuts)
  {
    cuts := [];
    if |text| <= max { return [text], cuts; }
    chunks := [];
    var start := 0;
    while start < |text|
      invariant 0 <= start == Begin(cuts, overlap, |cuts|) < |text|
      invariant AreChunks(text, max, overlap, cuts, chunks)
      invariant forall i :: 0 <= i < |cuts| ==> cuts[i] < |text|
    {
      var end := start + max;
      if end > |text| { end := |text|; }
      if end < |text| {
        var lastPeriod := LastIndex(text[start..end]);
        if lastPeriod > max / 2 { end := start + lastPeriod + 2; }
      }
      assert end == ChunkEnd(text, max, start);
      OneMoreChunk(text, max, overlap, cuts, chunks, start);
      cuts := cuts + [end];
      chunks := chunks + [text[start..end]];
      if end == |text| { return; }
      start := end - overlap;
    }
  }

  /** The chunks put back together, without what later ones repeat. */
  function Rebuilt(chunks: seq<string>, overlap: nat): string
    requires forall i :: 0 < i < |chunks| ==> |chunks[i]| >= overlap
  {
    if chunks == [] then ""
    else if |chunks| == 1 then chunks[0]
    else Rebuilt(chunks[..|chunks| - 1], overlap) + chunks[|chunks| - 1][overlap..]
  }

  /** No chunk is longer than allowed, none but the last is at most half as long, and each later one is longer than
      what it repeats: the last characters of the one before it. */
  lemma ChunksAreSized(text: string, max: nat, overlap: nat, cuts: seq<int>, chunks: seq<string>, i: nat)
    requires max >= 1 && overlap <= max / 2 && |text| > max && i < |chunks|
    requires AreChunks(text, max, overlap, cuts, chunks) && Complete(text, cuts)
    ensures |chunks[i]| <= max && (i < |chunks| - 1 ==> |chunks[i]| > max / 2)
    ensures i > 0 ==>
              && |chunks[i]| > overlap && |chunks[i - 1]| > overlap
              && chunks[i][..overlap] == chunks[i - 1][|chunks[i - 1]| - overlap..]
  {
    assert IsChunk(text, max, overlap, cuts, chunks, i);
    if i > 0 {
      assert IsChunk(text, max, overlap, cuts, chunks, i - 1);
      assert chunks[i][..overlap] == text[cuts[i - 1] - overlap..cuts[i - 1]];
    }
  }

  lemma {:induction false} RebuiltSoFar(text: string, max: nat, overlap: nat, cuts: seq<int>, chunks: seq<string>, n: nat)
    requires max >= 1 && overlap <= max / 2 && |text| > max && 0 < n <= |chunks|
    requires AreChunks(text, max, overlap, cuts, chunks) && Complete(text, cuts)
    requires forall i :: 0 < i < |chunks| ==> |chunks[i]| > overlap
    ensures 0 <= cuts[n - 1] <= |text| && Rebuilt(chunks[..n], overlap) == text[..cuts[n - 1]]
    decreases n
  {
    assert IsChunk(text, max, overlap, cuts, chunks, n - 1);
    if n > 1 {
      RebuiltSoFar(text, max, overlap, cuts, chunks, n - 1);
      assert chunks[..n][..n - 1] == chunks[..n - 1];
      assert chunks[n - 1][overlap..] == text[cuts[n - 2]..cuts[n - 1]];
      assert text[..cuts[n - 2]] + text[cuts[n - 2]..cuts[n - 1]] == text[..cuts[n - 1]];
    }
  }

  /** Dropping what each later chunk repeats gives the text back; with no overlap, where the written loop ends, that is
      plain concatenation. */
  lemma ChunksRebuildTheText(text: string, max: nat, overlap: nat, cuts: seq<int>, chunks: seq<string>)
    requires max >= 1 && overlap <= max / 2 && |text| > max
    requires AreChunks(text, max, overlap, cuts, chunks) && Complete(text, cuts)
    ensures (forall i :: 0 < i < |chunks| ==> |chunks[i]| >= overlap) && Rebuilt(chunks, overlap) == text
  {
    forall i | 0 < i < |chunks| ensures |chunks[i]| > overlap { ChunksAreSized(text, max, overlap, cuts, chunks, i); }
    RebuiltSoFar(text, max, overlap, cuts, chunks, |chunks|);
    assert chunks[..|chunks|] == chunks;
  }

  /** The text determines its chunks. */
  lemma ChunksAreUnique(text: string, max: nat, overlap: nat, c: seq<int>, a: seq<string>, d: seq<int>, b: seq<string>)
    requires max >= 1 && overlap <= max / 2
    requires AreChunks(text, max, overlap, c, a) && Complete(text, c)
    requires AreChunks(text, max, overlap, d, b) && Complete(text, d)
    ensures a == b
  {
    var n := if |a| <= |b| then |a| else |b|;
    for i := 0 to n
      invariant c[..i] == d[..i] && a[..i] == b[..i]
    {
      assert IsChunk(text, max, overlap, c, a, i) && IsChunk(text, max, overlap, d, b, i);
      assert i > 0 ==> c[i - 1] == c[..i][i - 1] == d[i - 1];
    }
    assert c[n - 1] == c[..n][n - 1] == d[n - 1];
  }

  // ---- seeding the knowledge base ----

  datatype Article = Article(title: string, category: string, content: string)

  datatype Row = Row(title: string, category: string, content: string, chunkIndex: nat)

  const MAX_CHARS: nat := 2000
  const OVERLAP: nat := 200
  const BATCH_SIZE: nat := 50

  function Texts(rows: seq<Row>): seq<string> {
    seq(|rows|, i requires 0 <= i < |rows| => rows[i].content)
  }

  function Embedded<V>(texts: seq<string>, embed: string -> V): seq<V> {
    seq(|texts|, i requires 0 <= i < |texts| => embed(texts[i]))
  }

  /** EmbedBatch on groups of 50: every text gets its own embedding, wherever the groups end. */
  method EmbedInBatches<V>(texts: seq<string>, embed: string -> V) returns (embeddings: seq<V>)
    ensures |embeddings| == |texts| && forall i :: 0 <= i < |texts| ==> embeddings[i] == embed(texts[i])
  {
    embeddings := [];
    var i := 0;
    while i < |texts|
      invariant 0 <= i && embeddings == Embedded(texts[..if i < |texts| then i else |texts|], embed)
    {
      var end := i + BATCH_SIZE;
      if end > |texts| { end := |texts|; }
      embeddings := embeddings + Embedded(texts[i..end], embed);
      i := i + BATCH_SIZE;
    }
  }

  /** These are the chunks of this text. */
  ghost predicate ChunksOf(text: string, max: nat, overlap: nat, chunks: seq<string>)
    requires max >= 1
  {
    if |text| <= max then chunks == [text]
    else exists cuts :: AreChunks(text, max, overlap, cuts, chunks) && Complete(text, cuts)
  }

  /** One article's rows: its chunks, numbered from zero. */
  function RowsOf(a: Article, chunks: seq<string>): seq<Row> {
    seq(|chunks|, i requires 0 <= i < |chunks| => Row(a.title, a.category, chunks[i], i))
  }

  function AllRows(articles: seq<Article>, pieces: seq<seq<string>>): seq<Row>
    requires |pieces| == |articles|
  {
    if articles == [] then []
    else AllRows(articles[..|articles| - 1], pieces[..|articles| - 1])
         + RowsOf(articles[|articles| - 1], pieces[|articles| - 1])
  }

  /** How many rows the first `k` articles take. */
  function RowsBefore(pieces: seq<seq<string>>, k: nat): nat
    requires k <= |pieces|
  {
    if k == 0 then 0 else RowsBefore(pieces, k - 1) + |pieces[k - 1]|
  }

  lemma {:induction false} RowsBeforeIn(pieces: seq<seq<string>>, n: nat, k: nat)
    requires k <= n <= |pieces|
    ensures RowsBefore(pieces[..n], k) == RowsBefore(pieces, k)
    decreases k
  {
    if k > 0 { RowsBeforeIn(pieces, n, k - 1); }
  }

  /** Chunk `i` of article `k` is one row, after those of the articles before it: the article's title and category, the
      chunk, and its number. */
  lemma {:induction false} RowsAreTheChunks(articles: seq<Article>, pieces: seq<seq<string>>, k: nat, i: nat)
    requires |pieces| == |articles| && k < |articles| && i < |pieces[k]|
    ensures var rows := AllRows(articles, pieces);
            && |rows| == RowsBefore(pieces, |pieces|) && RowsBefore(pieces, k) + i < |rows|
            && rows[RowsBefore(pieces, k) + i] == Row(articles[k].title, articles[k].category, pieces[k][i], i)
    decreases |articles|
  {
    var n := |articles| - 1;
    AllRowsCount(articles[..n], pieces[..n]);
    RowsBeforeIn(pieces, n, n);
    RowsBeforeIn(pieces, n, k);
    if k < n { RowsAreTheChunks(articles[..n], pieces[..n], k, i); }
  }

  lemma {:induction false} AllRowsCount(articles: seq<Article>, pieces: seq<seq<string>>)
    requires |pieces| == |articles|
    ensures |AllRows(articles, pieces)| == RowsBefore(pieces, |pieces|)
    decreases |articles|
  {
    if articles != [] {
      var n := |articles| - 1;
      AllRowsCount(articles[..n], pieces[..n]);
      RowsBeforeIn(pieces, n, n);
    }
  }

  /** `pieces` are the chunks of the articles, one list for each. */
  ghost predicate Cut(articles: seq<Article>, pieces: seq<seq<string>>) {
    && |pieces| == |articles|
    && forall k :: 0 <= k < |articles| ==> ChunksOf(articles[k].content, MAX_CHARS, OVERLAP, pieces[k])
  }

  method AddRows(rows: seq<Row>, texts: seq<string>, a: Article, chunks: seq<string>)
    returns (rows': seq<Row>, texts': seq<string>)
    requires texts == Texts(rows)
    ensures rows' == rows + RowsOf(a, chunks) && texts' == Texts(rows')
  {
    rows', texts' := rows, texts;
    for i := 0 to |chunks|
      invariant rows' == rows + RowsOf(a, chunks)[..i] && texts' == Texts(rows')
    {
      rows' := rows' + [Row(a.title, a.category, chunks[i], i)];
      texts' := texts' + [chunks[i]];
    }
    assert RowsOf(a, chunks)[..|chunks|] == RowsOf(a, chunks);
  }

  /** With the corrected chunking, for all articles: the rows are each article's chunks in order with their indices, and
      every row has the embedding of its own text. */
  method SeedGlobalKnowledgeCorrected<V>(articles: seq<Article>, embed: string -> V)
    returns (rows: seq<Row>, embeddings: seq<V>, ghost pieces: seq<seq<string>>)
    ensures Cut(articles, pieces) && rows == AllRows(articles, pieces)
    ensures |embeddings| == |rows| && forall i :: 0 <= i < |rows| ==> embeddings[i] == embed(rows[i].content)
  {
    rows, pieces := [], [];
    var texts: seq<string> := [];
    for k := 0 to |articles|
      invariant Cut(articles[..k], pieces) && rows == AllRows(articles[..k], pieces) && texts == Texts(rows)
    {
      var chunks;
      ghost var cuts;
      chunks, cuts := ChunkTextCorrected(articles[k].content, MAX_CHARS, OVERLAP);
      rows, texts := AddRows(rows, texts, articles[k], chunks);
      assert articles[..k + 1][..k] == articles[..k] && (pieces + [chunks])[..k] == pieces;
      pieces := pieces + [chunks];
    }
    assert articles[..|articles|] == articles;
    embeddings := EmbedInBatches(texts, embed);
  }

  /** As written it chunks with the written loop, so it returns only when every article fits in one chunk
      (SeedingReturnsExactly), and then the rows are the same. */
  method SeedGlobalKnowledge<V>(articles: seq<Article>, embed: string -> V)
    returns (rows: seq<Row>, embeddings: seq<V>, ghost pieces: seq<seq<string>>)
    requires forall i :: 0 <= i < |articles| ==> |articles[i].content| <= MAX_CHARS
    ensures Cut(articles, pieces) && rows == AllRows(articles, pieces)
    ensures |embeddings| == |rows| && forall i :: 0 <= i < |rows| ==> embeddings[i] == embed(rows[i].content)
  {
    rows, pieces := [], [];
    var texts: seq<string> := [];
    for k := 0 to |articles|
      invariant Cut(articles[..k], pieces) && rows == AllRows(articles[..k], pieces) && texts == Texts(rows)
    {
      var chunks;
      ghost var cuts;
      chunks, cuts := ChunkText(articles[k].content, MAX_CHARS, OVERLAP);
      rows, texts := AddRows(rows, texts, articles[k], chunks);
      assert articles[..k + 1][..k] == articles[..k] && (pieces + [chunks])[..k] == pieces;
      pieces := pieces + [chunks];
    }
    assert articles[..|articles|] == articles;
    embeddings := EmbedInBatches(texts, embed);
  }

  /** The written chunking of this text comes to an end. */
  ghost predicate ChunkingReturns(text: string) {
    |text| <= MAX_CHARS || exists k: nat :: StartAt(text, MAX_CHARS, OVERLAP, k) >= |text|
  }

  /** Seeding as written returns exactly when every article fits in one chunk. */
  lemma SeedingReturnsExactly(articles: seq<Article>)
    ensures (forall i :: 0 <= i < |articles| ==> ChunkingReturns(articles[i].content)) <==>
            (forall i :: 0 <= i < |articles| ==> |articles[i].content| <= 2000)
  {
    forall i | 0 <= i < |articles| ensures ChunkingReturns(articles[i].content) <==> |articles[i].content| <= MAX_CHARS {
      var text := articles[i].content;
      if |text| > MAX_CHARS {
        forall k: nat ensures StartAt(text, MAX_CHARS, OVERLAP, k) < |text| { NeverAtTheEnd(text, MAX_CHARS, OVERLAP, k); }
      }
    }
  }
}
