/**
 * `PDFEmbeddingGenerator.process_all_pdfs` and `save_embeddings`: walk the
 * company/category folders, chunk every file's normalised text, embed each
 * chunk, and split the resulting table into an embedding matrix and a
 * positionally aligned metadata table.
 */
module Ingestion {
  import opened Wrappers
  import opened Text
  import opened Seqs
  import Preprocess
  import Chunker

  /** An embedding, as returned by the fastText model. */
  type Vector = seq<real>

  /** `self.companies` and `self.categories`, fixed in `__init__`. */
  const Companies: seq<string> := ["LIC", "Maxlife"]
  const Categories: seq<string> := ["Health Plans", "Insurance Plans", "Pension Plans"]

  /**
   * The external capabilities and the configuration the generator uses:
   * `chunk_size`, NLTK's `sent_tokenize` and the model's `get_sentence_vector`.
   */
  datatype Pipeline = Pipeline(chunkSize: int, tokenize: string -> seq<string>, embed: string -> Vector)

  /**
   * A PDF file of a folder: its name and the text of its pages, each page
   * followed by a space, or `None` when reading it raised.
   */
  datatype PdfFile = PdfFile(name: string, raw: Option<string>)

  /** One record appended to `data`. */
  datatype Row = Row(company: string, category: string, fileName: string, chunkIdx: nat, text: string, embedding: Vector)

  /** One row of the metadata table: a record without its embedding. */
  datatype Metadata = Metadata(company: string, category: string, fileName: string, chunkIdx: nat, text: string)

  /** `extract_text_from_pdf`: the preprocessed page text, or "" when reading failed; normalised either way. */
  function ExtractText(raw: Option<string>): (r: string)
    ensures Preprocess.Normalized(r)
    ensures raw.None? ==> r == ""
    ensures raw.Some? ==> r == Preprocess.PreprocessText(raw.value)
  {
    match raw
    case None => ""
    case Some(t) => Preprocess.PreprocessText(t)
  }

  /**
   * The rows one file contributes: none when its extracted text is empty;
   * otherwise its chunks, numbered 0..n-1 in chunk order.
   */
  function FileRows(company: string, category: string, f: PdfFile, p: Pipeline): (rows: seq<Row>)
    ensures ExtractText(f.raw) == "" ==> rows == []
    ensures ExtractText(f.raw) != "" ==>
      var cs := Chunker.Chunks(p.tokenize(ExtractText(f.raw)), p.chunkSize);
      |rows| == |cs| &&
      forall i :: 0 <= i < |cs| ==> rows[i] == Row(company, category, f.name, i, cs[i], p.embed(cs[i]))
  {
    var text := ExtractText(f.raw);
    if text == "" then []
    else ChunkRows(company, category, f.name, Chunker.Chunks(p.tokenize(text), p.chunkSize), p.embed)
  }

  /** The rows of the chunks of one file: row `i` is chunk `i`, numbered `i`, embedded from its own text. */
  function ChunkRows(company: string, category: string, name: string, cs: seq<string>, embed: string -> Vector): (rows: seq<Row>)
    ensures |rows| == |cs|
    ensures forall i :: 0 <= i < |cs| ==> rows[i] == Row(company, category, name, i, cs[i], embed(cs[i]))
    decreases |cs|
  {
    if cs == [] then []
    else
      var last := |cs| - 1;
      ChunkRows(company, category, name, cs[..last], embed) + [Row(company, category, name, last, cs[last], embed(cs[last]))]
  }

  /** Every row names one of `companies` and one of `cats`. */
  predicate TaggedWith(rows: seq<Row>, companies: seq<string>, cats: seq<string>) {
    forall i :: 0 <= i < |rows| ==> rows[i].company in companies && rows[i].category in cats
  }

  lemma TaggedAppend(a: seq<Row>, b: seq<Row>, companies: seq<string>, cats: seq<string>)
    requires TaggedWith(a, companies, cats) && TaggedWith(b, companies, cats)
    ensures TaggedWith(a + b, companies, cats)
  {
    forall i | 0 <= i < |a + b| ensures (a + b)[i].company in companies && (a + b)[i].category in cats {
      if i >= |a| {
        assert (a + b)[i] == b[i - |a|];
      }
    }
  }

  lemma TaggedWiden(rows: seq<Row>, companies: seq<string>, cats: seq<string>, companies': seq<string>, cats': seq<string>)
    requires TaggedWith(rows, companies, cats)
    requires forall c :: c in companies ==> c in companies'
    requires forall k :: k in cats ==> k in cats'
    ensures TaggedWith(rows, companies', cats')
  {
  }

  /** The rows of the files of one folder, in the order they are listed; each carries the folder's company and category. */
  function FolderRows(company: string, category: string, files: seq<PdfFile>, p: Pipeline): (rows: seq<Row>)
    ensures TaggedWith(rows, [company], [category])
    decreases |files|
  {
    if files == [] then []
    else
      var front := FolderRows(company, category, files[..|files| - 1], p);
      var last := FileRows(company, category, files[|files| - 1], p);
      TaggedAppend(front, last, [company], [category]);
      front + last
  }

  /** The rows of one company's category folders; a missing folder contributes nothing. Each row names the company and one of `cats`. */
  function CompanyRows(company: string, cats: seq<string>, folders: map<(string, string), seq<PdfFile>>, p: Pipeline): (rows: seq<Row>)
    ensures TaggedWith(rows, [company], cats)
    decreases |cats|
  {
    if cats == [] then []
    else
      var cat := cats[|cats| - 1];
      var front := CompanyRows(company, cats[..|cats| - 1], folders, p);
      var last := if (company, cat) in folders then FolderRows(company, cat, folders[(company, cat)], p) else [];
      TaggedWiden(front, [company], cats[..|cats| - 1], [company], cats);
      TaggedWiden(last, [company], [cat], [company], cats);
      TaggedAppend(front, last, [company], cats);
      front + last
  }

  /** The whole table, company by company; each row names one of `companies` and one of `cats`. */
  function AllRows(companies: seq<string>, cats: seq<string>, folders: map<(string, string), seq<PdfFile>>, p: Pipeline): (rows: seq<Row>)
    ensures TaggedWith(rows, companies, cats)
    decreases |companies|
  {
    if companies == [] then []
    else
      var company := companies[|companies| - 1];
      var front := AllRows(companies[..|companies| - 1], cats, folders, p);
      var last := CompanyRows(company, cats, folders, p);
      TaggedWiden(front, companies[..|companies| - 1], cats, companies, cats);
      TaggedWiden(last, [company], cats, companies, cats);
      TaggedAppend(front, last, companies, cats);
      front + last
  }

  lemma FolderRowsSnoc(company: string, category: string, files: seq<PdfFile>, f: nat, p: Pipeline)
    requires f < |files|
    ensures FolderRows(company, category, files[..f + 1], p)
         == FolderRows(company, category, files[..f], p) + FileRows(company, category, files[f], p)
  {
    assert files[..f + 1][..f] == files[..f];
  }

  lemma CompanyRowsSnoc(company: string, cats: seq<string>, k: nat, folders: map<(string, string), seq<PdfFile>>, p: Pipeline)
    requires k < |cats|
    ensures CompanyRows(company, cats[..k + 1], folders, p)
         == CompanyRows(company, cats[..k], folders, p)
          + (if (company, cats[k]) in folders then FolderRows(company, cats[k], folders[(company, cats[k])], p) else [])
  {
    assert cats[..k + 1][..k] == cats[..k];
  }

  lemma AllRowsSnoc(companies: seq<string>, c: nat, cats: seq<string>, folders: map<(string, string), seq<PdfFile>>, p: Pipeline)
    requires c < |companies|
    ensures AllRows(companies[..c + 1], cats, folders, p)
         == AllRows(companies[..c], cats, folders, p) + CompanyRows(companies[c], cats, folders, p)
  {
    assert companies[..c + 1][..c] == companies[..c];
  }

  /**
   * `process_all_pdfs()`: `folders` holds, for each `base_dir/company/category`
   * folder that exists, its PDF files in the order the glob lists them.
   */
  method ProcessAllPdfs(folders: map<(string, string), seq<PdfFile>>, p: Pipeline) returns (data: seq<Row>)
    ensures data == AllRows(Companies, Categories, folders, p)
  {
    data := [];
    for c := 0 to |Companies|
      invariant data == AllRows(Companies[..c], Categories, folders, p)
    {
      AllRowsSnoc(Companies, c, Categories, folders, p);
      data := AppendCompany(data, Companies[c], folders, p);
    }
    assert Companies[..|Companies|] == Companies;
  }

  /** The loop over the categories of one company, skipping the folders that do not exist. */
  method AppendCompany(data: seq<Row>, company: string, folders: map<(string, string), seq<PdfFile>>, p: Pipeline)
    returns (data': seq<Row>)
    ensures data' == data + CompanyRows(company, Categories, folders, p)
  {
    data' := data;
    for k := 0 to |Categories|
      invariant data' == data + CompanyRows(company, Categories[..k], folders, p)
    {
      var category := Categories[k];
      CompanyRowsSnoc(company, Categories, k, folders, p);
      if (company, category) in folders {
        AppendAssoc(data, CompanyRows(company, Categories[..k], folders, p),
          FolderRows(company, category, folders[(company, category)], p));
        data' := AppendFolder(data', company, category, folders[(company, category)], p);
      }
    }
    assert Categories[..|Categories|] == Categories;
  }

  /** The loop over the PDF files of one existing folder, appending to `data`. */
  method AppendFolder(data: seq<Row>, company: string, category: string, files: seq<PdfFile>, p: Pipeline)
    returns (data': seq<Row>)
    ensures data' == data + FolderRows(company, category, files, p)
  {
    data' := data;
    for f := 0 to |files|
      invariant data' == data + FolderRows(company, category, files[..f], p)
    {
      FolderRowsSnoc(company, category, files, f, p);
      AppendAssoc(data, FolderRows(company, category, files[..f], p), FileRows(company, category, files[f], p));
      data' := AppendFile(data', company, category, files[f], p);
    }
    assert files[..|files|] == files;
  }

  /** The body of the file loop: extract, chunk and append one file's rows; an empty text adds none. */
  method AppendFile(data: seq<Row>, company: string, category: string, file: PdfFile, p: Pipeline)
    returns (data': seq<Row>)
    ensures data' == data + FileRows(company, category, file, p)
  {
    data' := data;
    var text := ExtractText(file.raw);
    if text != "" {
      var chunks := Chunker.ChunkText(p.tokenize(text), p.chunkSize);
      data' := AppendChunks(data', company, category, file.name, chunks, p.embed);
    }
  }

  /** The loop `for chunk_idx, chunk in enumerate(chunks)`, appending one row per chunk. */
  method AppendChunks(data: seq<Row>, company: string, category: string, name: string, chunks: seq<string>, embed: string -> Vector)
    returns (data': seq<Row>)
    ensures data' == data + ChunkRows(company, category, name, chunks, embed)
  {
    data' := data;
    for chunkIdx := 0 to |chunks|
      invariant data' == data + ChunkRows(company, category, name, chunks[..chunkIdx], embed)
    {
      data' := data' + [Row(company, category, name, chunkIdx, chunks[chunkIdx], embed(chunks[chunkIdx]))];
      assert chunks[..chunkIdx + 1][..chunkIdx] == chunks[..chunkIdx];
    }
    assert chunks[..|chunks|] == chunks;
  }

  /** Why `save_embeddings` raises before writing anything. */
  datatype SaveError =
    | EmptyTable        // a DataFrame built from no rows has no 'embedding' column
    | RaggedEmbeddings  // np.stack needs every embedding to have the same length

  /** The record of row `r` without its embedding: `df.drop('embedding', axis=1)`. */
  function MetadataOf(r: Row): Metadata {
    Metadata(r.company, r.category, r.fileName, r.chunkIdx, r.text)
  }

  /** All vectors have the same length, so that they stack into a matrix. */
  predicate Uniform(vs: seq<Vector>) {
    forall i, j :: 0 <= i < |vs| && 0 <= j < |vs| ==> |vs[i]| == |vs[j]|
  }

  function Embeddings(rows: seq<Row>): (es: seq<Vector>)
    ensures |es| == |rows| && forall i :: 0 <= i < |rows| ==> es[i] == rows[i].embedding
  {
    seq(|rows|, i requires 0 <= i < |rows| => rows[i].embedding)
  }

  function MetadataTable(rows: seq<Row>): (ms: seq<Metadata>)
    ensures |ms| == |rows| && forall i :: 0 <= i < |rows| ==> ms[i] == MetadataOf(rows[i])
  {
    seq(|rows|, i requires 0 <= i < |rows| => MetadataOf(rows[i]))
  }

  /**
   * `save_embeddings(df, output_dir)` without the writes: the embedding
   * matrix and the metadata table it would save, or why it raises.
   */
  function SaveSplit(rows: seq<Row>): (r: Result<(seq<Vector>, seq<Metadata>), SaveError>)
    ensures r.Err? <==> rows == [] || !Uniform(Embeddings(rows))
    ensures rows == [] ==> r == Err(EmptyTable)
    ensures r.Ok? ==>
      var (es, ms) := r.value;
      |es| == |ms| == |rows| &&
      forall i :: 0 <= i < |rows| ==> es[i] == rows[i].embedding && ms[i] == MetadataOf(rows[i])
  {
    if rows == [] then Err(EmptyTable)
    else if !Uniform(Embeddings(rows)) then Err(RaggedEmbeddings)
    else Ok((Embeddings(rows), MetadataTable(rows)))
  }

  /** Reading the two artifacts back and zipping them positionally into rows. */
  function Combine(es: seq<Vector>, ms: seq<Metadata>): (rows: seq<Row>)
    requires |es| == |ms|
    ensures |rows| == |es|
    ensures forall i :: 0 <= i < |rows| ==> MetadataOf(rows[i]) == ms[i] && rows[i].embedding == es[i]
  {
    seq(|es|, i requires 0 <= i < |es| =>
      Row(ms[i].company, ms[i].category, ms[i].fileName, ms[i].chunkIdx, ms[i].text, es[i]))
  }

  /** Row i of the matrix and row i of the table describe the same record: zipping them gives the table back. */
  lemma SaveThenCombine(rows: seq<Row>)
    requires SaveSplit(rows).Ok?
    ensures Combine(SaveSplit(rows).value.0, SaveSplit(rows).value.1) == rows
  {
    var (es, ms) := SaveSplit(rows).value;
    var back := Combine(es, ms);
    forall i | 0 <= i < |rows|
      ensures back[i] == rows[i]
    {
      assert MetadataOf(back[i]) == MetadataOf(rows[i]);
    }
  }

  /** Conversely, any aligned, nonempty, stackable pair is what saving its zip produces. */
  lemma CombineThenSave(es: seq<Vector>, ms: seq<Metadata>)
    requires |es| == |ms| && es != [] && Uniform(es)
    ensures SaveSplit(Combine(es, ms)) == Ok((es, ms))
  {
    var rows := Combine(es, ms);
    assert Embeddings(rows) == es;
    assert MetadataTable(rows) == ms;
  }
}
