/** Document ingestion: the word-window chunker, the in-memory vector store and the
    pipeline that rebuilds the store from the text files of the data directory. */
module Ingest {
  import opened Common
  import opened Text
  import opened Embed

  /** Words per chunk, and words shared by consecutive chunks, used for every file. */
  const ChunkSize: nat := 500
  const ChunkOverlap: nat := 50

  /** A retrieval unit: a chunk's text, the file it came from and its position among
      that file's chunks. */
  datatype Chunk = Chunk(text: string, source: string, chunkIndex: nat)

  // ---------------------------------------------------------------- chunking

  /** `words.slice(start, start + size)`. */
  function Window(words: seq<string>, start: nat, size: nat): (w: seq<string>)
    ensures start < |words| ==> |w| == Min(size, |words| - start)
    ensures start >= |words| ==> w == []
    ensures forall j :: 0 <= j < |w| ==> w[j] == words[start + j]
  {
    words[Min(start, |words|)..Min(start + size, |words|)]
  }

  /** How many windows the chunking loop emits from word position i on: none once i
      reaches n, one when the window at i reaches the end, else one more than from
      i + step. */
  function WindowCount(n: nat, size: nat, step: nat, i: nat): nat
    requires step > 0
    decreases n - i
  {
    if i >= n then 0
    else if i + size >= n then 1
    else 1 + WindowCount(n, size, step, i + step)
  }

  /** The chunks of a word sequence: window k starts at word k * step, where
      step = size - overlap, and is joined with single spaces. */
  function ChunkWindows(words: seq<string>, size: int, overlap: int): seq<string>
    requires 0 < size && overlap < size
  {
    var step := size - overlap;
    seq(WindowCount(|words|, size, step, 0),
        k requires 0 <= k => JoinWith(Window(words, k * step, size), " "))
  }

  /** `chunkText`: splits text on whitespace runs and emits windows of chunkSize
      words, advancing by chunkSize - overlap, until a window reaches the last word. */
  method ChunkText(text: string, chunkSize: int, overlap: int) returns (chunks: seq<string>)
    requires 0 < chunkSize && overlap < chunkSize
    ensures chunks == ChunkWindows(Split(text), chunkSize, overlap)
  {
    var words := Split(text);
    var step := chunkSize - overlap;
    var total := WindowCount(|words|, chunkSize, step, 0);
    chunks := [];
    var i := 0;
    while i < |words|
      invariant i == |chunks| * step
      invariant |chunks| + WindowCount(|words|, chunkSize, step, i) == total
      invariant forall k :: 0 <= k < |chunks| ==> chunks[k] == JoinWith(Window(words, k * step, chunkSize), " ")
      decreases |words| - i
    {
      chunks := chunks + [JoinWith(Window(words, i, chunkSize), " ")];
      if i + chunkSize >= |words| {
        break;
      }
      i := i + step;
      assert i == |chunks| * step by {
        assert |chunks| * step == (|chunks| - 1) * step + step;
      }
    }
    ChunksAreWindows(words, chunkSize, overlap, chunks);
  }

  /** The chunks the loop emitted, one per window, are the windows of the words. */
  lemma ChunksAreWindows(words: seq<string>, size: int, overlap: int, chunks: seq<string>)
    requires 0 < size && overlap < size
    requires |chunks| == WindowCount(|words|, size, size - overlap, 0)
    requires forall k :: 0 <= k < |chunks| ==> chunks[k] == JoinWith(Window(words, k * (size - overlap), size), " ")
    ensures chunks == ChunkWindows(words, size, overlap)
  {
  }

  /** The loop positions: every emitted window starts inside the text, and every
      window but the last ends before the last word. */
  lemma {:induction false} WindowStarts(n: nat, size: nat, step: nat, i: nat, k: nat)
    requires step > 0 && k < WindowCount(n, size, step, i)
    ensures i + k * step < n
    ensures k + 1 < WindowCount(n, size, step, i) ==> i + k * step + size < n
    decreases n - i
  {
    if k > 0 {
      WindowStarts(n, size, step, i + step, k - 1);
      assert i + k * step == (i + step) + (k - 1) * step;
    }
  }

  /** Under overlap >= 0 the last window reaches the end: the loop always stops at
      its break, never at its loop condition. */
  lemma {:induction false} LastWindowReachesEnd(n: nat, size: nat, step: nat, i: nat)
    requires 0 < step <= size && i < n
    ensures WindowCount(n, size, step, i) >= 1
    ensures i + (WindowCount(n, size, step, i) - 1) * step + size >= n
    decreases n - i
  {
    if i + size < n {
      LastWindowReachesEnd(n, size, step, i + step);
      var c := WindowCount(n, size, step, i + step);
      assert i + c * step == (i + step) + (c - 1) * step;
    }
  }

  /** The chunk count: ceil(max(n - size, 0) / step) + 1 windows for n >= 1 words. */
  lemma {:induction false} WindowCountFormula(n: nat, size: nat, step: nat, i: nat)
    requires 0 < step <= size && i < n
    ensures WindowCount(n, size, step, i) == CeilDiv(Max(n - size - i, 0), step) + 1
    decreases n - i
  {
    if i + size < n {
      WindowCountFormula(n, size, step, i + step);
    }
  }

  /** With overlap >= 0 every word lies in some window. */
  lemma {:induction false} WindowsCover(n: nat, size: nat, step: nat, i: nat, w: nat)
    returns (k: nat)
    requires 0 < step <= size && i <= w < n
    ensures k < WindowCount(n, size, step, i)
    ensures i + k * step <= w < i + k * step + size
    decreases n - i
  {
    if i + size >= n || w < i + size {
      k := 0;
    } else {
      var k' := WindowsCover(n, size, step, i + step, w);
      k := k' + 1;
      assert i + k * step == (i + step) + k' * step;
    }
  }

  /** The chunks of a text of at most chunkSize words: one chunk, all words joined by
      single spaces (for the empty text, the single chunk ""). */
  lemma ChunkTextSingle(text: string, chunkSize: int, overlap: int)
    requires 0 < chunkSize && overlap < chunkSize
    requires |Split(text)| <= chunkSize
    ensures ChunkWindows(Split(text), chunkSize, overlap) == [JoinWith(Split(text), " ")]
    ensures ChunkWindows(Split(text), chunkSize, overlap) == [Squeeze(text)]
  {
    SplitSqueeze(text);
    var words := Split(text);
    assert Window(words, 0 * (chunkSize - overlap), chunkSize) == words;
  }

  /** Chunk k is the window of words [k * step, min(k * step + chunkSize, n)), and it
      starts inside the text. */
  lemma ChunkWindow(words: seq<string>, chunkSize: int, overlap: int, k: nat)
    requires 0 < chunkSize && overlap < chunkSize
    requires k < |ChunkWindows(words, chunkSize, overlap)|
    ensures var start := k * (chunkSize - overlap);
            start < |words| &&
            ChunkWindows(words, chunkSize, overlap)[k] == JoinWith(words[start..Min(start + chunkSize, |words|)], " ")
  {
    var step := chunkSize - overlap;
    WindowStarts(|words|, chunkSize, step, 0, k);
    assert Window(words, k * step, chunkSize) == words[k * step..Min(k * step + chunkSize, |words|)];
  }

  /** Chunk k of the words `split` produced is its window of at most chunkSize words
      joined by spaces, and splitting it again gives back exactly those words. (Split's
      own contract supplies the two conditions on the words.) */
  lemma ChunkContents(words: seq<string>, chunkSize: int, overlap: int, k: nat)
    requires 0 < chunkSize && overlap < chunkSize
    requires forall j :: 0 <= j < |words| ==> SpaceFree(words[j])
    requires forall j :: 0 < j < |words| - 1 ==> words[j] != []
    requires k < |ChunkWindows(words, chunkSize, overlap)|
    ensures var win := Window(words, k * (chunkSize - overlap), chunkSize);
            && ChunkWindows(words, chunkSize, overlap)[k] == JoinWith(win, " ")
            && 0 < |win| <= chunkSize
            && Split(JoinWith(win, " ")) == win
  {
    var start := k * (chunkSize - overlap);
    ChunkWindow(words, chunkSize, overlap, k);
    WindowResplit(words, start, Min(start + chunkSize, |words|));
  }

  /** Any window of the words `split` produced splits back into itself once joined. */
  lemma WindowResplit(words: seq<string>, lo: nat, hi: nat)
    requires lo < hi <= |words|
    requires forall j :: 0 <= j < |words| ==> SpaceFree(words[j])
    requires forall j :: 0 < j < |words| - 1 ==> words[j] != []
    ensures Split(JoinWith(words[lo..hi], " ")) == words[lo..hi]
  {
    var win := words[lo..hi];
    assert forall j :: 0 <= j < |win| ==> win[j] == words[lo + j];
    SplitJoin(win);
  }

  /** With 0 <= overlap < chunkSize and n >= 1 words (the split always gives one),
      there are ceil(max(n - chunkSize, 0) / step) + 1 chunks, the last one reaches
      the final word, and every word is in some chunk. */
  lemma ChunkCoverage(text: string, chunkSize: int, overlap: int, w: nat)
    requires 0 <= overlap < chunkSize
    requires w < |Split(text)|
    ensures var n, step := |Split(text)|, chunkSize - overlap;
            var count := |ChunkWindows(Split(text), chunkSize, overlap)|;
            count == CeilDiv(Max(n - chunkSize, 0), step) + 1 &&
            (count - 1) * step + chunkSize >= n &&
            exists k :: 0 <= k < count && k * step <= w < k * step + chunkSize
  {
    var n, step := |Split(text)|, chunkSize - overlap;
    WindowCountFormula(n, chunkSize, step, 0);
    LastWindowReachesEnd(n, chunkSize, step, 0);
    var k := WindowsCover(n, chunkSize, step, 0, w);
    assert 0 <= k < |ChunkWindows(Split(text), chunkSize, overlap)|;
  }

  /** When overlap >= chunkSize and the text has more than chunkSize words, every loop
      position satisfies the loop condition and none reaches the break: `chunkText`
      never returns. */
  lemma ChunkLoopDiverges(n: nat, chunkSize: int, overlap: int, t: nat)
    requires 0 < chunkSize < n && chunkSize - overlap <= 0
    ensures var i := t * (chunkSize - overlap); i < n && i + chunkSize < n
  {
    var step := chunkSize - overlap;
    assert t * step <= 0 by {
      assert t * (-step) >= 0;
    }
  }

  // ---------------------------------------------------------------- ingestion

  /** `file.endsWith('.txt')`. */
  predicate IsTextFile(name: string) {
    |name| >= 4 && name[|name| - 4..] == ".txt"
  }

  /** `files.filter(file => file.endsWith('.txt'))`. */
  function TextFiles(files: seq<string>): (r: seq<string>)
    ensures forall f :: f in r <==> f in files && IsTextFile(f)
  {
    if |files| == 0 then []
    else (if IsTextFile(files[0]) then [files[0]] else []) + TextFiles(files[1..])
  }

  /** The filter keeps listing order: filtering a concatenation concatenates. */
  lemma {:induction false} TextFilesAppend(a: seq<string>, b: seq<string>)
    ensures TextFiles(a + b) == TextFiles(a) + TextFiles(b)
  {
    if |a| == 0 {
      assert a + b == b;
    } else {
      assert (a + b)[0] == a[0];
      assert (a + b)[1..] == a[1..] + b;
      TextFilesAppend(a[1..], b);
    }
  }

  /** A file's chunks, tagged with the file name and positions 0, 1, ... */
  function Tag(file: string, texts: seq<string>): seq<Chunk>
  {
    seq(|texts|, k requires 0 <= k < |texts| => Chunk(texts[k], file, k))
  }

  /** The chunks of a file's content, with the chunker's default parameters. */
  function FileChunks(content: string): seq<string>
  {
    ChunkWindows(Split(content), ChunkSize, ChunkOverlap)
  }

  /** Reading the files one after another and tagging their chunks; the first read
      that fails aborts. */
  function CollectChunks(files: seq<string>, readFile: string -> Result<string>): Result<seq<Chunk>>
  {
    if |files| == 0 then Ok([])
    else
      match CollectChunks(files[..|files| - 1], readFile)
      case Err(e) => Err(e)
      case Ok(cs) =>
        match readFile(files[|files| - 1])
        case Err(e) => Err(e)
        case Ok(content) => Ok(cs + Tag(files[|files| - 1], FileChunks(content)))
  }

  /** The pair of sequences the store holds. */
  datatype StoreContents = StoreContents(chunks: seq<Chunk>, embeddings: seq<Embedding>)

  function Texts(cs: seq<Chunk>): seq<string>
  {
    seq(|cs|, k requires 0 <= k < |cs| => cs[k].text)
  }

  /** What a successful ingestion leaves in the store, or the error it throws. */
  function Ingested(listing: Result<seq<string>>, readFile: string -> Result<string>, service: Service)
    : Result<StoreContents>
  {
    if listing.Err? then Err(listing.error)
    else
      var files := TextFiles(listing.value);
      if |files| == 0 then Ok(StoreContents([], []))
      else
        match CollectChunks(files, readFile)
        case Err(e) => Err(e)
        case Ok(cs) =>
          match EmbedAll(service, Texts(cs))
          case Err(e) => Err(e)
          case Ok(es) => Ok(StoreContents(cs, es))
  }

  /** The module-level store: chunks and their embeddings as parallel sequences. */
  class VectorStore {
    var chunks: seq<Chunk>
    var embeddings: seq<Embedding>

    ghost predicate Valid()
      reads this
    {
      |chunks| == |embeddings|
    }

    /** The store as the module creates it: both sequences empty. */
    constructor ()
      ensures Valid() && chunks == [] && embeddings == []
    {
      chunks := [];
      embeddings := [];
    }
  }

  /** `ingestDocuments`: empties the store, then chunks every `.txt` file of the
      listing in order, embeds all chunk texts and installs chunks and embeddings.
      A listing, read or embedding failure is rethrown and leaves the store empty. */
  method IngestDocuments(store: VectorStore, listing: Result<seq<string>>,
                         readFile: string -> Result<string>, service: Service)
    returns (r: Outcome)
    modifies store
    ensures store.Valid()
    ensures var want := Ingested(listing, readFile, service);
            if want.Ok?
            then r == Pass && store.chunks == want.value.chunks && store.embeddings == want.value.embeddings
            else r == Fail(want.error) && store.chunks == [] && store.embeddings == []
  {
    store.chunks := [];
    store.embeddings := [];
    if listing.Err? {
      return Fail(listing.error);
    }
    var textFiles := TextFiles(listing.value);
    if |textFiles| == 0 {
      return Pass;
    }
    var collected := CollectFiles(textFiles, readFile);
    if collected.Err? {
      return Fail(collected.error);
    }
    var allChunks := collected.value;
    var chunkTexts := Texts(allChunks);
    var embeddings, _ := GenerateBatchEmbeddings(service, chunkTexts);
    if embeddings.Err? {
      return Fail(embeddings.error);
    }
    EmbedAllSpec(service, chunkTexts);
    store.chunks := allChunks;
    store.embeddings := embeddings.value;
    r := Pass;
  }

  /** The file loop of `ingestDocuments`: reads each file in turn, chunks its content
      and appends the chunks tagged with the file name and their positions. */
  method CollectFiles(textFiles: seq<string>, readFile: string -> Result<string>) returns (r: Result<seq<Chunk>>)
    ensures r == CollectChunks(textFiles, readFile)
  {
    var allChunks: seq<Chunk> := [];
    for f := 0 to |textFiles|
      invariant CollectChunks(textFiles[..f], readFile) == Ok(allChunks)
    {
      var file := textFiles[f];
      var content := readFile(file);
      CollectStep(textFiles, readFile, f);
      if content.Err? {
        return Err(content.error);
      }
      var chunks := ChunkText(content.value, ChunkSize, ChunkOverlap);
      allChunks := AppendTagged(allChunks, file, chunks);
    }
    assert textFiles[..|textFiles|] == textFiles;
    r := Ok(allChunks);
  }

  /** `chunks.forEach((chunk, index) => allChunks.push(...))`: appends each chunk with
      its file name and its position. */
  method AppendTagged(allChunks: seq<Chunk>, file: string, chunks: seq<string>) returns (result: seq<Chunk>)
    ensures result == allChunks + Tag(file, chunks)
  {
    result := allChunks;
    for index := 0 to |chunks|
      invariant result == allChunks + Tag(file, chunks[..index])
    {
      TagSnoc(file, chunks, index);
      result := result + [Chunk(chunks[index], file, index)];
    }
    assert chunks[..|chunks|] == chunks;
  }

  /** Tagging one more chunk appends it with the next position. */
  lemma TagSnoc(file: string, texts: seq<string>, index: nat)
    requires index < |texts|
    ensures Tag(file, texts[..index + 1]) == Tag(file, texts[..index]) + [Chunk(texts[index], file, index)]
  {
  }

  /** Collecting one more file: a read failure fails the whole collection, a read
      success appends the tagged chunks of its content. */
  lemma CollectStep(files: seq<string>, readFile: string -> Result<string>, f: nat)
    requires f < |files| && CollectChunks(files[..f], readFile).Ok?
    ensures readFile(files[f]).Err? ==> CollectChunks(files, readFile) == Err(readFile(files[f]).error)
    ensures readFile(files[f]).Ok? ==>
      CollectChunks(files[..f + 1], readFile) ==
        Ok(CollectChunks(files[..f], readFile).value + Tag(files[f], FileChunks(readFile(files[f]).value)))
  {
    assert files[..f + 1][..f] == files[..f];
    if readFile(files[f]).Err? {
      CollectChunksPrefixErr(files, readFile, f + 1);
    }
  }

  /** Once reading a prefix of the files fails, collecting all of them fails alike. */
  lemma {:induction false} CollectChunksPrefixErr(files: seq<string>, readFile: string -> Result<string>, k: nat)
    requires k <= |files|
    requires CollectChunks(files[..k], readFile).Err?
    ensures CollectChunks(files, readFile) == CollectChunks(files[..k], readFile)
    decreases |files| - k
  {
    if k < |files| {
      var init := files[..|files| - 1];
      assert init[..k] == files[..k];
      CollectChunksPrefixErr(init, readFile, k);
    } else {
      assert files[..k] == files;
    }
  }

  /** Each chunk names its file by its position in that file's chunk sequence. */
  ghost predicate FromItsFile(c: Chunk, readFile: string -> Result<string>) {
    readFile(c.source).Ok? &&
    c.chunkIndex < |FileChunks(readFile(c.source).value)| &&
    c.text == FileChunks(readFile(c.source).value)[c.chunkIndex]
  }

  /** Each file's chunks are contiguous and numbered 0, 1, ...: a chunk either starts
      a file (index 0) or continues its predecessor's file with the next index. */
  ghost predicate Contiguous(cs: seq<Chunk>) {
    (|cs| > 0 ==> cs[0].chunkIndex == 0) &&
    forall i :: 0 < i < |cs| ==>
      cs[i].chunkIndex == 0 ||
      (cs[i].source == cs[i - 1].source && cs[i].chunkIndex == cs[i - 1].chunkIndex + 1)
  }

  /** Collecting succeeds exactly when every file is readable. */
  lemma {:induction false} CollectChunksOk(files: seq<string>, readFile: string -> Result<string>)
    ensures CollectChunks(files, readFile).Ok? <==> forall f :: f in files ==> readFile(f).Ok?
  {
    if |files| > 0 {
      var init, last := files[..|files| - 1], files[|files| - 1];
      CollectChunksOk(init, readFile);
      assert files == init + [last];
      assert forall f :: f in files <==> f in init || f == last;
    }
  }

  /** Every collected chunk comes from a listed file, as that file's chunkIndex-th chunk. */
  lemma {:induction false} CollectChunksProvenance(files: seq<string>, readFile: string -> Result<string>)
    requires CollectChunks(files, readFile).Ok?
    ensures var cs := CollectChunks(files, readFile).value;
            forall i :: 0 <= i < |cs| ==> cs[i].source in files && FromItsFile(cs[i], readFile)
  {
    if |files| > 0 {
      var init, last := files[..|files| - 1], files[|files| - 1];
      CollectChunksProvenance(init, readFile);
      assert files == init + [last];
      var prior := CollectChunks(init, readFile).value;
      var tagged := Tag(last, FileChunks(readFile(last).value));
      var cs := prior + tagged;
      assert CollectChunks(files, readFile).value == cs;
      forall i | 0 <= i < |cs|
        ensures cs[i].source in files && FromItsFile(cs[i], readFile)
      {
        if i >= |prior| {
          assert cs[i] == tagged[i - |prior|];
        } else {
          assert cs[i] == prior[i] && prior[i].source in init;
        }
      }
    }
  }

  /** Collected chunks come file by file, each file's numbered 0, 1, ... */
  lemma {:induction false} CollectChunksContiguous(files: seq<string>, readFile: string -> Result<string>)
    requires CollectChunks(files, readFile).Ok?
    ensures Contiguous(CollectChunks(files, readFile).value)
  {
    if |files| > 0 {
      var init, last := files[..|files| - 1], files[|files| - 1];
      CollectChunksContiguous(init, readFile);
      var prior := CollectChunks(init, readFile).value;
      var tagged := Tag(last, FileChunks(readFile(last).value));
      var cs := prior + tagged;
      assert CollectChunks(files, readFile).value == cs;
      forall i | 0 < i < |cs|
        ensures cs[i].chunkIndex == 0 ||
                (cs[i].source == cs[i - 1].source && cs[i].chunkIndex == cs[i - 1].chunkIndex + 1)
      {
        if i > |prior| {
          assert cs[i] == tagged[i - |prior|] && cs[i - 1] == tagged[i - 1 - |prior|];
        } else if i == |prior| {
          assert cs[i] == tagged[0];
        } else {
          assert cs[i] == prior[i] && cs[i - 1] == prior[i - 1];
        }
      }
      if |cs| > 0 {
        if |prior| == 0 { assert cs[0] == tagged[0]; } else { assert cs[0] == prior[0]; }
      }
    }
  }

  /** No chunk of a listed file is left out. */
  lemma {:induction false} CollectChunksComplete(files: seq<string>, readFile: string -> Result<string>,
                                                  f: string, k: nat)
    requires CollectChunks(files, readFile).Ok?
    requires f in files
    ensures readFile(f).Ok?
    ensures k < |FileChunks(readFile(f).value)| ==>
              Chunk(FileChunks(readFile(f).value)[k], f, k) in CollectChunks(files, readFile).value
  {
    CollectChunksOk(files, readFile);
    var init, last := files[..|files| - 1], files[|files| - 1];
    assert files == init + [last];
    var prior := CollectChunks(init, readFile).value;
    var tagged := Tag(last, FileChunks(readFile(last).value));
    assert CollectChunks(files, readFile).value == prior + tagged;
    if f == last {
      if k < |FileChunks(readFile(f).value)| {
        assert (prior + tagged)[|prior| + k] == Chunk(FileChunks(readFile(f).value)[k], f, k);
      }
    } else {
      assert f in init;
      CollectChunksComplete(init, readFile, f, k);
    }
  }

  /** After a successful ingestion the store's sequences are parallel: position i
      holds the service's vector for chunk i's text. */
  lemma IngestedParallel(listing: Result<seq<string>>, readFile: string -> Result<string>, service: Service)
    requires Ingested(listing, readFile, service).Ok?
    ensures var v := Ingested(listing, readFile, service).value;
            |v.chunks| == |v.embeddings| &&
            forall i :: 0 <= i < |v.chunks| ==> service(v.chunks[i].text) == Ok(v.embeddings[i])
  {
    var files := TextFiles(listing.value);
    if |files| > 0 {
      var cs := CollectChunks(files, readFile).value;
      EmbedAllSpec(service, Texts(cs));
    }
  }

  /** The stored chunks are those collected from the `.txt` files. */
  lemma IngestedFromTextFiles(listing: Result<seq<string>>, readFile: string -> Result<string>, service: Service)
    requires Ingested(listing, readFile, service).Ok?
    ensures listing.Ok?
    ensures var files := TextFiles(listing.value);
            |files| > 0 ==> CollectChunks(files, readFile).Ok? &&
                            Ingested(listing, readFile, service).value.chunks == CollectChunks(files, readFile).value
    ensures |TextFiles(listing.value)| == 0 ==> Ingested(listing, readFile, service).value.chunks == []
  {
  }

  /** Only `.txt` files of the listing contribute; each stored chunk is the
      chunkIndex-th chunk of its file; each file's chunks are contiguous and
      numbered from 0. */
  lemma IngestedChunks(listing: Result<seq<string>>, readFile: string -> Result<string>, service: Service)
    requires Ingested(listing, readFile, service).Ok?
    ensures var cs := Ingested(listing, readFile, service).value.chunks;
            Contiguous(cs) &&
            forall i :: 0 <= i < |cs| ==>
              IsTextFile(cs[i].source) && cs[i].source in listing.value && FromItsFile(cs[i], readFile)
  {
    IngestedFromTextFiles(listing, readFile, service);
    var files := TextFiles(listing.value);
    if |files| > 0 {
      CollectChunksProvenance(files, readFile);
      CollectChunksContiguous(files, readFile);
    }
  }

  /** No chunk of a `.txt` file of the listing is missing from the store. */
  lemma IngestedComplete(listing: Result<seq<string>>, readFile: string -> Result<string>, service: Service,
                         f: string, k: nat)
    requires Ingested(listing, readFile, service).Ok?
    requires f in listing.value && IsTextFile(f)
    ensures readFile(f).Ok?
    ensures k < |FileChunks(readFile(f).value)| ==>
              Chunk(FileChunks(readFile(f).value)[k], f, k) in Ingested(listing, readFile, service).value.chunks
  {
    IngestedFromTextFiles(listing, readFile, service);
    CollectChunksComplete(TextFiles(listing.value), readFile, f, k);
  }

  /** Every chunk text embeds. */
  ghost predicate AllEmbed(cs: seq<Chunk>, service: Service) {
    forall i :: 0 <= i < |cs| ==> service(cs[i].text).Ok?
  }

  /** Ingestion succeeds exactly when the directory can be listed, every `.txt`
      file can be read and every chunk text can be embedded. */
  lemma IngestedSucceeds(listing: Result<seq<string>>, readFile: string -> Result<string>, service: Service)
    ensures Ingested(listing, readFile, service).Ok? <==>
              listing.Ok? &&
              (forall f :: f in TextFiles(listing.value) ==> readFile(f).Ok?) &&
              (CollectChunks(TextFiles(listing.value), readFile).Ok? ==>
                 AllEmbed(CollectChunks(TextFiles(listing.value), readFile).value, service))
  {
    if listing.Ok? {
      var files := TextFiles(listing.value);
      CollectChunksOk(files, readFile);
      if CollectChunks(files, readFile).Ok? {
        var cs := CollectChunks(files, readFile).value;
        var texts := Texts(cs);
        EmbedAllSpec(service, texts);
        var j := FirstFailure(service, texts);
        if j < |cs| {
          assert service(cs[j].text).Err?;
          assert !AllEmbed(cs, service);
        } else {
          assert forall i :: 0 <= i < |cs| ==> texts[i] == cs[i].text && service(texts[i]).Ok?;
          assert AllEmbed(cs, service);
        }
      }
    }
  }

  /** A listing without `.txt` files leaves both sequences empty, without error. */
  lemma IngestedNoTextFiles(listing: Result<seq<string>>, readFile: string -> Result<string>, service: Service)
    requires listing.Ok? && forall f :: f in listing.value ==> !IsTextFile(f)
    ensures Ingested(listing, readFile, service) == Ok(StoreContents([], []))
  {
    if |TextFiles(listing.value)| > 0 {
      assert TextFiles(listing.value)[0] in TextFiles(listing.value);
    }
  }
}
