/** `chunkText`: a document's text cut into bounded chunks, and the renumbering of a PDF's pages. */
module KnowledgeChunks {
  import opened Prelude
  import opened Text

  const MAX_CHUNKS := 500
  const CHUNK_CHARACTERS := 4_000

  datatype Chunk = Chunk(ordinal: nat, pageNumber: Option<int>, content: Text, tokenCount: nat)

  // ----- paragraphs -----

  /** Where a run of line feeds ends. */
  function FeedRun(s: Text): (n: nat)
    ensures n <= |s| && forall i | 0 <= i < n :: s[i] == LF
  {
    if s != [] && s[0] == LF then 1 + FeedRun(s[1..]) else 0
  }

  /** `split(/\n{2,}/u)`, with `current` the piece being collected. */
  function SplitParagraphs(s: Text, current: Text): seq<Text>
    decreases |s|
  {
    if s == [] then [current]
    else if FeedRun(s) >= 2 then [current] + SplitParagraphs(s[FeedRun(s)..], [])
    else SplitParagraphs(s[1..], current + [s[0]])
  }

  /** Trimmed, with the blank ones dropped. */
  function Kept(pieces: seq<Text>): seq<Text> {
    if pieces == [] then []
    else (if Trim(pieces[0]) == [] then [] else [Trim(pieces[0])]) + Kept(pieces[1..])
  }

  function Paragraphs(content: Text): seq<Text> {
    Kept(SplitParagraphs(content, []))
  }

  /** The pieces of one paragraph from `offset` on. */
  function PiecesFrom(paragraph: Text, offset: nat): seq<Text>
    decreases |paragraph| - offset
  {
    if offset >= |paragraph| then [] else [Slice(paragraph, offset)] + PiecesFrom(paragraph, offset + CHUNK_CHARACTERS)
  }

  /** `slice(offset, offset + 4000)`. */
  function Slice(s: Text, offset: nat): Text
    requires offset < |s|
  {
    if offset + CHUNK_CHARACTERS <= |s| then s[offset..offset + CHUNK_CHARACTERS] else s[offset..]
  }

  function AllPieces(paragraphs: seq<Text>): seq<Text> {
    if paragraphs == [] then [] else PiecesFrom(paragraphs[0], 0) + AllPieces(paragraphs[1..])
  }

  // ----- chunks -----

  /** The chunks pushed so far, and the text waiting to be pushed. */
  datatype Progress = Progress(chunks: seq<Text>, pending: Text)

  /** A blank pending text is kept, not reset. */
  function Flush(p: Progress): Progress {
    if Trim(p.pending) == [] then p else Progress(p.chunks + [Trim(p.pending)], [])
  }

  function Joined(pending: Text, piece: Text): Text {
    if pending != [] then pending + [LF, LF] + piece else piece
  }

  function AddPiece(p: Progress, piece: Text): Progress {
    var q := if p.pending != [] && |p.pending| + |piece| + 2 > CHUNK_CHARACTERS then Flush(p) else p;
    var r := q.(pending := Joined(q.pending, piece));
    if |piece| == CHUNK_CHARACTERS then Flush(r) else r
  }

  function AddPieces(p: Progress, pieces: seq<Text>): Progress
    decreases pieces
  {
    if pieces == [] then p else AddPieces(AddPiece(p, pieces[0]), pieces[1..])
  }

  /** The chunks of a text, were there no limit on their number. */
  function Contents(content: Text): seq<Text> {
    Flush(AddPieces(Progress([], []), AllPieces(Paragraphs(content)))).chunks
  }

  function Numbered(contents: seq<Text>, pageNumber: Option<int>): seq<Chunk> {
    seq(|contents|, i requires 0 <= i < |contents| =>
      Chunk(i + 1, pageNumber, contents[i], (|contents[i]| + 3) / 4))
  }

  // ----- nothing is lost -----

  function Concat(parts: seq<Text>): Text {
    if parts == [] then [] else parts[0] + Concat(parts[1..])
  }

  lemma {:induction false} ConcatAppend(a: seq<Text>, b: seq<Text>)
    ensures Concat(a + b) == Concat(a) + Concat(b)
  {
    if a == [] {
      assert a + b == b;
    } else {
      assert (a + b)[1..] == a[1..] + b;
      ConcatAppend(a[1..], b);
    }
  }

  lemma {:induction false} SplitKeeps(s: Text, current: Text)
    ensures Visible(Concat(SplitParagraphs(s, current))) == Visible(current) + Visible(s)
    decreases |s|
  {
    hide Visible, Concat;
    if s == [] {
      SplitKeepsNone(current);
    } else if FeedRun(s) >= 2 {
      SplitKeeps(s[FeedRun(s)..], []);
      SplitKeepsRun(s, current, SplitParagraphs(s[FeedRun(s)..], []));
    } else {
      hide FeedRun;
      SplitKeeps(s[1..], current + [s[0]]);
      VisibleAppend(current, [s[0]]);
      VisibleAppend([s[0]], s[1..]);
      assert [s[0]] + s[1..] == s;
    }
  }

  lemma SplitKeepsNone(current: Text)
    ensures Visible(Concat([current])) == Visible(current) + Visible([])
  {
    assert Concat([current]) == current + [] == current;
    assert Visible([]) == [];
  }

  lemma SplitKeepsRun(s: Text, current: Text, rest: seq<Text>)
    requires s != [] && Visible(Concat(rest)) == Visible([]) + Visible(s[FeedRun(s)..])
    ensures Visible(Concat([current] + rest)) == Visible(current) + Visible(s)
  {
    hide Visible, FeedRun;
    VisibleBlank([]);
    assert ([current] + rest)[1..] == rest;
    VisibleAppend(current, Concat(rest));
    VisibleAround(s, FeedRun(s), |s|);
  }

  lemma {:induction false} KeptKeeps(pieces: seq<Text>)
    ensures Visible(Concat(Kept(pieces))) == Visible(Concat(pieces))
  {
    if pieces != [] {
      var t := Trim(pieces[0]);
      KeptKeeps(pieces[1..]);
      VisibleTrim(pieces[0]);
      VisibleAppend(pieces[0], Concat(pieces[1..]));
      if t != [] {
        assert ([t] + Kept(pieces[1..]))[1..] == Kept(pieces[1..]);
        VisibleAppend(t, Concat(Kept(pieces[1..])));
      } else {
        assert [] + Kept(pieces[1..]) == Kept(pieces[1..]);
      }
    }
  }

  lemma {:induction false} PiecesKeep(paragraph: Text, offset: nat)
    requires offset <= |paragraph|
    ensures Concat(PiecesFrom(paragraph, offset)) == paragraph[offset..]
    decreases |paragraph| - offset
  {
    if offset < |paragraph| {
      var next := offset + CHUNK_CHARACTERS;
      var rest := PiecesFrom(paragraph, next);
      assert ([Slice(paragraph, offset)] + rest)[1..] == rest;
      if next <= |paragraph| {
        PiecesKeep(paragraph, next);
        assert paragraph[offset..] == paragraph[offset..next] + paragraph[next..];
      }
    }
  }

  lemma {:induction false} AllPiecesKeep(paragraphs: seq<Text>)
    ensures Concat(AllPieces(paragraphs)) == Concat(paragraphs)
  {
    if paragraphs != [] {
      PiecesKeep(paragraphs[0], 0);
      assert paragraphs[0][0..] == paragraphs[0];
      AllPiecesKeep(paragraphs[1..]);
      ConcatAppend(PiecesFrom(paragraphs[0], 0), AllPieces(paragraphs[1..]));
    }
  }

  /** The visible text a progress holds. */
  function Held(p: Progress): Text {
    Visible(Concat(p.chunks)) + Visible(p.pending)
  }

  lemma FlushKeeps(p: Progress)
    ensures Held(Flush(p)) == Held(p)
  {
    var t := Trim(p.pending);
    if t != [] {
      VisibleTrim(p.pending);
      ConcatAppend(p.chunks, [t]);
      assert Concat([t]) == t;
      VisibleAppend(Concat(p.chunks), t);
    }
  }

  lemma PendingKeeps(q: Progress, piece: Text)
    ensures Held(q.(pending := Joined(q.pending, piece))) == Held(q) + Visible(piece)
  {
    hide Visible, Concat, Joined;
    JoinKeeps(q.pending, piece);
  }

  lemma AddPieceKeeps(p: Progress, piece: Text)
    ensures Held(AddPiece(p, piece)) == Held(p) + Visible(piece)
  {
    hide Flush, Visible, Held, Joined;
    var q := if p.pending != [] && |p.pending| + |piece| + 2 > CHUNK_CHARACTERS then Flush(p) else p;
    FlushKeeps(p);
    PendingKeeps(q, piece);
    FlushKeeps(q.(pending := Joined(q.pending, piece)));
  }

  lemma JoinKeeps(pending: Text, piece: Text)
    ensures Visible(Joined(pending, piece)) == Visible(pending) + Visible(piece)
  {
    hide Visible;
    BlankLineIsInvisible();
    if pending != [] {
      VisibleAppend(pending + [LF, LF], piece);
      VisibleAppend(pending, [LF, LF]);
      assert Visible(pending) + [] == Visible(pending);
    } else {
      assert [] + Visible(piece) == Visible(piece);
    }
  }

  lemma BlankLineIsInvisible()
    ensures Visible([LF, LF]) == [] && Visible([]) == []
  {
    VisibleBlank([LF, LF]);
  }

  lemma {:induction false} AddPiecesKeep(p: Progress, pieces: seq<Text>)
    ensures Held(AddPieces(p, pieces)) == Held(p) + Visible(Concat(pieces))
    decreases pieces
  {
    hide AddPiece, Held;
    if pieces != [] {
      AddPieceKeeps(p, pieces[0]);
      AddPiecesKeep(AddPiece(p, pieces[0]), pieces[1..]);
      VisibleAppend(pieces[0], Concat(pieces[1..]));
    }
  }

  /** A flushed progress has nothing visible left waiting. */
  lemma NothingWaits(p: Progress)
    ensures Visible(Flush(p).pending) == []
  {
    if Trim(p.pending) == [] {
      VisibleTrim(p.pending);
    }
  }

  /** The chunks hold every visible character of the text, in order, and no other. */
  lemma ContentsKeep(content: Text)
    ensures Visible(Concat(Contents(content))) == Visible(content)
  {
    hide Visible, Concat, AddPieces, Flush, SplitParagraphs, Kept, AllPieces;
    var start := Progress([], []);
    var pieces := AllPieces(Paragraphs(content));
    var p := AddPieces(start, pieces);
    StartsEmpty();
    SplitKeeps(content, []);
    KeptKeeps(SplitParagraphs(content, []));
    AllPiecesKeep(Paragraphs(content));
    AddPiecesKeep(start, pieces);
    FlushKeeps(p);
    NothingWaits(p);
    var done := Flush(p);
    assert Contents(content) == done.chunks;
    assert Held(done) == Visible(Concat(done.chunks)) + [] == Visible(Concat(done.chunks));
    assert Held(start) + Visible(Concat(pieces)) == Visible(Concat(pieces));
    assert [] + Visible(content) == Visible(content);
  }

  lemma StartsEmpty()
    ensures Held(Progress([], [])) == [] && Visible([]) == []
  {
  }

  // ----- chunks are bounded -----

  /** What waits fits into a chunk once its leading blanks are gone. */
  predicate Fits(pending: Text) {
    |TrimStart(pending)| <= CHUNK_CHARACTERS
  }

  predicate GoodChunk(c: Text) {
    c != [] && |c| <= CHUNK_CHARACTERS && !IsWhite(c[0]) && !IsWhite(c[|c| - 1])
  }

  predicate GoodProgress(p: Progress) {
    Fits(p.pending) && forall i | 0 <= i < |p.chunks| :: GoodChunk(p.chunks[i])
  }

  lemma TrimIsGood(s: Text)
    requires Fits(s) && Trim(s) != []
    ensures GoodChunk(Trim(s))
  {
    hide Trim, TrimStart, IsWhite;
    TrimEnds(s);
  }

  lemma FlushIsGood(p: Progress)
    requires GoodProgress(p)
    ensures GoodProgress(Flush(p)) && (Flush(p).pending == [] || IsBlank(Flush(p).pending))
  {
    hide Trim, Fits, GoodChunk, IsBlank;
    if Trim(p.pending) == [] {
      TrimEnds(p.pending);
    } else {
      TrimIsGood(p.pending);
      NothingFits();
    }
  }

  lemma NothingFits()
    ensures Fits([])
  {
  }

  lemma {:induction false} TrimStartBlank(blank: Text, s: Text)
    requires IsBlank(blank)
    ensures TrimStart(blank + s) == TrimStart(s)
  {
    if blank == [] {
      assert blank + s == s;
    } else {
      assert (blank + s)[1..] == blank[1..] + s;
      TrimStartBlank(blank[1..], s);
    }
  }

  lemma JoinFits(pending: Text, piece: Text)
    requires |piece| <= CHUNK_CHARACTERS
    requires pending == [] || IsBlank(pending) || |pending| + |piece| + 2 <= CHUNK_CHARACTERS
    ensures Fits(Joined(pending, piece))
  {
    if pending != [] && IsBlank(pending) {
      assert IsBlank(pending + [LF, LF]);
      TrimStartBlank(pending + [LF, LF], piece);
    }
  }

  lemma AddPieceIsGood(p: Progress, piece: Text)
    requires GoodProgress(p) && |piece| <= CHUNK_CHARACTERS
    ensures GoodProgress(AddPiece(p, piece))
  {
    hide Flush, Fits, GoodChunk, IsBlank;
    var q := if p.pending != [] && |p.pending| + |piece| + 2 > CHUNK_CHARACTERS then Flush(p) else p;
    FlushIsGood(p);
    JoinFits(q.pending, piece);
    var r := q.(pending := Joined(q.pending, piece));
    FlushIsGood(r);
  }

  lemma {:induction false} AddPiecesAreGood(p: Progress, pieces: seq<Text>)
    requires GoodProgress(p) && forall i | 0 <= i < |pieces| :: |pieces[i]| <= CHUNK_CHARACTERS
    ensures GoodProgress(AddPieces(p, pieces))
    decreases pieces
  {
    hide GoodProgress, AddPiece;
    if pieces != [] {
      AddPieceIsGood(p, pieces[0]);
      AddPiecesAreGood(AddPiece(p, pieces[0]), pieces[1..]);
    }
  }

  lemma {:induction false} PiecesAreShort(paragraph: Text, offset: nat)
    ensures forall i | 0 <= i < |PiecesFrom(paragraph, offset)| :: |PiecesFrom(paragraph, offset)[i]| <= CHUNK_CHARACTERS
    decreases |paragraph| - offset
  {
    if offset < |paragraph| {
      PiecesAreShort(paragraph, offset + CHUNK_CHARACTERS);
    }
  }

  lemma {:induction false} AllPiecesAreShort(paragraphs: seq<Text>)
    ensures forall i | 0 <= i < |AllPieces(paragraphs)| :: |AllPieces(paragraphs)[i]| <= CHUNK_CHARACTERS
  {
    if paragraphs != [] {
      PiecesAreShort(paragraphs[0], 0);
      AllPiecesAreShort(paragraphs[1..]);
    }
  }

  /** Every chunk has visible ends and at most 4,000 characters, even after a blank pending text was
      carried along. */
  lemma ContentsAreGood(content: Text)
    ensures forall i | 0 <= i < |Contents(content)| :: GoodChunk(Contents(content)[i])
  {
    hide AddPieces, Flush, GoodChunk, AllPieces, Paragraphs;
    var pieces := AllPieces(Paragraphs(content));
    AllPiecesAreShort(Paragraphs(content));
    assert GoodProgress(Progress([], []));
    AddPiecesAreGood(Progress([], []), pieces);
    FlushIsGood(AddPieces(Progress([], []), pieces));
  }

  // ----- the limit, and the loops -----

  lemma FlushGrows(p: Progress)
    ensures |p.chunks| <= |Flush(p).chunks|
  {
  }

  lemma {:induction false} AddPiecesGrow(p: Progress, pieces: seq<Text>)
    ensures |p.chunks| <= |AddPieces(p, pieces).chunks|
    decreases pieces
  {
    if pieces != [] {
      AddPiecesGrow(AddPiece(p, pieces[0]), pieces[1..]);
    }
  }

  /** The flush closure; it fails where the source throws. */
  method FlushChunks(chunks: seq<Chunk>, pending: Text, ghost p: Progress)
    returns (ok: bool, chunks': seq<Chunk>, pending': Text)
    requires chunks == Numbered(p.chunks, None) && pending == p.pending && |chunks| <= MAX_CHUNKS
    ensures ok <==> |Flush(p).chunks| <= MAX_CHUNKS
    ensures ok ==> chunks' == Numbered(Flush(p).chunks, None) && pending' == Flush(p).pending
  {
    hide Trim;
    var normalized := Trim(pending);
    if normalized == [] {
      return true, chunks, pending;
    }
    if |chunks| >= MAX_CHUNKS {
      return false, chunks, pending;
    }
    return true, chunks + [Chunk(|chunks| + 1, None, normalized, (|normalized| + 3) / 4)], [];
  }

  /** The whole chunking, its nested loops over paragraphs and pieces: it fails exactly when the text
      makes more than 500 chunks. */
  method ChunkText(content: Text) returns (r: Result<seq<Chunk>>)
    ensures r == if |Contents(content)| > MAX_CHUNKS then Err(UnsupportedFileFormat)
                 else Ok(Numbered(Contents(content), None))
  {
    hide Flush, AddPiece, Numbered, Paragraphs, AllPieces;
    var paragraphs := Paragraphs(content);
    ghost var start := Progress([], []);
    ghost var all := AddPieces(start, AllPieces(paragraphs));
    ghost var p := start;
    var chunks: seq<Chunk>, pending: Text := [], [];
    NothingNumbered();
    assert paragraphs[0..] == paragraphs;
    for k := 0 to |paragraphs|
      invariant chunks == Numbered(p.chunks, None) && pending == p.pending && |chunks| == |p.chunks| <= MAX_CHUNKS
      invariant all == AddPieces(p, AllPieces(paragraphs[k..]))
    {
      var paragraph := paragraphs[k];
      ghost var later := AllPieces(paragraphs[k + 1..]);
      NextParagraph(paragraphs, k);
      var offset := 0;
      while offset < |paragraph|
        invariant chunks == Numbered(p.chunks, None) && pending == p.pending && |chunks| == |p.chunks| <= MAX_CHUNKS
        invariant all == AddPieces(p, PiecesFrom(paragraph, offset) + later)
        decreases |paragraph| - offset
      {
        var piece := Slice(paragraph, offset);
        ghost var rest := PiecesFrom(paragraph, offset + CHUNK_CHARACTERS) + later;
        NextPiece(p, paragraph, offset, later);
        var ok := true;
        ok, chunks, pending := AddOne(chunks, pending, piece, p);
        p := AddPiece(p, piece);
        if !ok {
          AddPiecesGrow(p, rest);
          FlushGrows(all);
          return Err(UnsupportedFileFormat);
        }
        offset := offset + CHUNK_CHARACTERS;
      }
      assert PiecesFrom(paragraph, offset) + later == later;
    }
    assert paragraphs[|paragraphs|..] == [];
    NoPieces(p);
    var ok := true;
    ok, chunks, pending := FlushChunks(chunks, pending, p);
    r := if ok then Ok(chunks) else Err(UnsupportedFileFormat);
  }

  /** The body of the inner loop. */
  method AddOne(chunks: seq<Chunk>, pending: Text, piece: Text, ghost p: Progress)
    returns (ok: bool, chunks': seq<Chunk>, pending': Text)
    requires chunks == Numbered(p.chunks, None) && pending == p.pending && |chunks| == |p.chunks| <= MAX_CHUNKS
    ensures ok <==> |AddPiece(p, piece).chunks| <= MAX_CHUNKS
    ensures ok ==> chunks' == Numbered(AddPiece(p, piece).chunks, None) && pending' == AddPiece(p, piece).pending
    ensures ok ==> |chunks'| == |AddPiece(p, piece).chunks|
  {
    hide Flush, Numbered;
    ok, chunks', pending' := true, chunks, pending;
    ghost var q := p;
    if pending' != [] && |pending'| + |piece| + 2 > CHUNK_CHARACTERS {
      ok, chunks', pending' := FlushChunks(chunks', pending', q);
      q := Flush(p);
      if !ok {
        FlushGrows(q.(pending := Joined(q.pending, piece)));
        return;
      }
    }
    NumberedLength(q.chunks);
    pending' := if pending' != [] then pending' + [LF, LF] + piece else piece;
    q := q.(pending := pending');
    if |piece| == CHUNK_CHARACTERS {
      ok, chunks', pending' := FlushChunks(chunks', pending', q);
      q := Flush(q);
    }
    NumberedLength(q.chunks);
  }

  lemma NumberedLength(contents: seq<Text>)
    ensures |Numbered(contents, None)| == |contents|
  {
  }

  lemma NothingNumbered()
    ensures Numbered([], None) == []
  {
  }

  lemma NoPieces(p: Progress)
    ensures AddPieces(p, AllPieces([])) == p
  {
  }

  lemma NextParagraph(paragraphs: seq<Text>, k: nat)
    requires k < |paragraphs|
    ensures AllPieces(paragraphs[k..]) == PiecesFrom(paragraphs[k], 0) + AllPieces(paragraphs[k + 1..])
  {
    assert paragraphs[k..][1..] == paragraphs[k + 1..];
  }

  lemma NextPiece(p: Progress, paragraph: Text, offset: nat, later: seq<Text>)
    requires offset < |paragraph|
    ensures AddPieces(p, PiecesFrom(paragraph, offset) + later) ==
            AddPieces(AddPiece(p, Slice(paragraph, offset)), PiecesFrom(paragraph, offset + CHUNK_CHARACTERS) + later)
  {
    hide AddPiece, Slice;
    var rest := PiecesFrom(paragraph, offset + CHUNK_CHARACTERS);
    assert PiecesFrom(paragraph, offset) + later == [Slice(paragraph, offset)] + (rest + later);
    assert ([Slice(paragraph, offset)] + (rest + later))[1..] == rest + later;
  }

  // ----- the promise -----

  function ContentsOf(chunks: seq<Chunk>): seq<Text> {
    seq(|chunks|, i requires 0 <= i < |chunks| => chunks[i].content)
  }

  /** What a caller gets when chunking succeeds. */
  predicate GoodChunks(content: Text, chunks: seq<Chunk>) {
    && Visible(Concat(ContentsOf(chunks))) == Visible(content)
    && |chunks| <= MAX_CHUNKS
    && forall i | 0 <= i < |chunks| :: chunks[i].ordinal == i + 1 && GoodChunk(chunks[i].content)
  }

  lemma ChunksAreGood(content: Text)
    requires |Contents(content)| <= MAX_CHUNKS
    ensures GoodChunks(content, Numbered(Contents(content), None))
  {
    hide Visible, Concat, Contents, GoodChunk;
    ContentsKeep(content);
    ContentsAreGood(content);
    assert ContentsOf(Numbered(Contents(content), None)) == Contents(content);
  }

  // ----- the pages of a PDF -----

  datatype Page = Page(num: int, text: Text)

  /** The chunks of all pages, each with its page, were there no limit. */
  function PageContents(pages: seq<Page>): seq<(int, Text)> {
    if pages == [] then []
    else
      var last := |pages| - 1;
      PageContents(pages[..last]) + OnPage(pages[last].num, Contents(pages[last].text))
  }

  function OnPage(num: int, contents: seq<Text>): seq<(int, Text)> {
    seq(|contents|, i requires 0 <= i < |contents| => (num, contents[i]))
  }

  /** Ordinals run on across pages. */
  function Renumbered(contents: seq<(int, Text)>): seq<Chunk> {
    seq(|contents|, i requires 0 <= i < |contents| =>
      Chunk(i + 1, Some(contents[i].0), contents[i].1, (|contents[i].1| + 3) / 4))
  }

  lemma PageContentsStep(pages: seq<Page>)
    requires pages != []
    ensures var last := |pages| - 1;
            PageContents(pages) == PageContents(pages[..last]) + OnPage(pages[last].num, Contents(pages[last].text))
  {
  }

  lemma {:induction false} PagesGrow(pages: seq<Page>, k: nat)
    requires k <= |pages|
    ensures |PageContents(pages[..k])| <= |PageContents(pages)|
  {
    hide Contents, OnPage;
    if k < |pages| {
      PageContentsStep(pages);
      PagesGrow(pages[..|pages| - 1], k);
      assert pages[..|pages| - 1][..k] == pages[..k];
    } else {
      assert pages[..k] == pages;
    }
  }

  /** The loops of `pdf`: they fail exactly when all pages together make more than 500 chunks. */
  method ChunkPages(pages: seq<Page>) returns (r: Result<seq<Chunk>>)
    ensures r == if |PageContents(pages)| > MAX_CHUNKS then Err(UnsupportedFileFormat)
                 else Ok(Renumbered(PageContents(pages)))
  {
    hide Contents;
    var chunks: seq<Chunk> := [];
    for k := 0 to |pages|
      invariant |PageContents(pages[..k])| <= MAX_CHUNKS
      invariant chunks == Renumbered(PageContents(pages[..k]))
    {
      var page := pages[k];
      ghost var before, contents := PageContents(pages[..k]), Contents(page.text);
      assert pages[..k + 1][..k] == pages[..k];
      PagesGrow(pages, k + 1);
      var pageChunks := ChunkText(page.text);
      if pageChunks.Err? {
        return Err(UnsupportedFileFormat);
      }
      for j := 0 to |pageChunks.value|
        invariant chunks == Renumbered(before + OnPage(page.num, contents[..j]))
        invariant |before| + j <= MAX_CHUNKS
      {
        if |chunks| >= MAX_CHUNKS {
          return Err(UnsupportedFileFormat);
        }
        chunks := chunks + [pageChunks.value[j].(ordinal := |chunks| + 1, pageNumber := Some(page.num))];
        assert before + OnPage(page.num, contents[..j + 1]) ==
               before + OnPage(page.num, contents[..j]) + [(page.num, contents[j])];
      }
      assert contents[..|contents|] == contents;
    }
    assert pages[..|pages|] == pages;
    r := Ok(chunks);
  }

  function PagesText(pages: seq<Page>): Text {
    if pages == [] then [] else PagesText(pages[..|pages| - 1]) + pages[|pages| - 1].text
  }

  function TextsOf(contents: seq<(int, Text)>): seq<Text> {
    seq(|contents|, i requires 0 <= i < |contents| => contents[i].1)
  }

  /** Across pages, too, every visible character is kept, in order, and every chunk is good. */
  lemma {:induction false} PagesKeep(pages: seq<Page>)
    ensures Visible(Concat(TextsOf(PageContents(pages)))) == Visible(PagesText(pages))
    ensures forall i | 0 <= i < |PageContents(pages)| :: GoodChunk(PageContents(pages)[i].1)
  {
    hide Visible, Concat, Contents, GoodChunk, PageContents, OnPage;
    if pages != [] {
      var last := |pages| - 1;
      PagesKeep(pages[..last]);
      PageContentsStep(pages);
      ContentsKeep(pages[last].text);
      ContentsAreGood(pages[last].text);
      PageKeeps(PageContents(pages[..last]), pages[last].num, Contents(pages[last].text));
      VisibleAppend(PagesText(pages[..last]), pages[last].text);
    } else {
      NoPages();
    }
  }

  lemma NoPages()
    ensures PageContents([]) == [] && Concat(TextsOf([])) == PagesText([])
  {
  }

  lemma PageKeeps(a: seq<(int, Text)>, num: int, contents: seq<Text>)
    ensures var b := OnPage(num, contents);
            Visible(Concat(TextsOf(a + b))) == Visible(Concat(TextsOf(a))) + Visible(Concat(contents))
    ensures (forall i | 0 <= i < |a| :: GoodChunk(a[i].1)) && (forall i | 0 <= i < |contents| :: GoodChunk(contents[i])) ==>
              var b := OnPage(num, contents); forall i | 0 <= i < |a + b| :: GoodChunk((a + b)[i].1)
  {
    hide Visible, Concat, GoodChunk;
    var b := OnPage(num, contents);
    assert TextsOf(b) == contents;
    assert TextsOf(a + b) == TextsOf(a) + TextsOf(b);
    ConcatAppend(TextsOf(a), contents);
    VisibleAppend(Concat(TextsOf(a)), Concat(contents));
  }
}
