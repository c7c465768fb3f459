# basic-rag-demo: a Dafny model of the ingestion and prompt pipeline

basic-rag-demo is a small retrieval-augmented generation demo. It reads MDX
articles and splits off their YAML frontmatter. It cleans the article text,
cuts it into chunks at headings, and stores one embedded point per chunk in a
vector collection. To answer a question, it embeds the prompt with a search
instruction in front, retrieves passages, and wraps the passages and the
prompt in a fixed template for the language model.

This project models the pure text processing of `main.py` and the shape of
what gets stored, and proves properties of each step:

- `Frontmatter`: `extract_metadata_from_mdx` after the file is read. The
  metadata is the YAML text between the first two `---`. The content is
  everything after the second `---`, stripped, with any later `---` kept.
  Text in which `---` does not occur twice without overlap is returned
  whole with no metadata.
  A YAML error gives empty metadata.
- `Cleaner`: `clean_article_content`. A line pass drops every line that
  starts with `import ` (`^import .*\n?` in multi-line mode). A tag pass
  drops every `<…>` with at least one character inside and no `>` inside
  (`<[^>]+>`). The result is then stripped.
- `Chunker`: `create_chunks`, as written. The text is split at every `\n\n`,
  scanned left to right. A paragraph starting with `#` pushes the open chunk
  and opens a new one.
  The open chunk is never pushed at the end.
- `Indexer`: `generate_embeddings` once the embedding service has answered,
  the payload `{**metadata, "content": chunk}`, and `store_article` as an
  append to the collection.
- `Query`: the search text sent for embedding, and the augmented prompt
  template.
- `Delimited`, `Strings`, `Seqs` and `Wrappers` give Python's `str.split`,
  `str.join`, `str.strip` and `str.startswith`, plus subsequences and
  positions, on `seq<char>`.
- `Scenarios` holds worked inputs that pin down behaviour the general
  lemmas leave open.

Four behaviours of the code are easy to miss, and the model keeps them:

- `create_chunks` never pushes the open chunk, so the last heading and
  everything after it are lost (`Chunker.DroppedTail`). An article that is
  one heading paragraph gives a single empty chunk
  (`Scenarios.HeadingOnlyArticleLost`).
- Cleaning is not idempotent. An import line indented by one space survives
  the line pass. When it is the first line of the article, the final strip
  moves it to the start of the text, and a second cleaning removes it
  (`Scenarios.IndentedImportSurvives`, for a one-line article;
  `Scenarios.CleanNotIdempotent`). Further down the article the strip leaves
  the indented line alone.
- `---` is matched anywhere in the text, not only on a line of its own at
  the start of the file (`Frontmatter.ExtractBetweenFirstTwo`).
- Paragraphs are cut at the exact string `\n\n`, not at blank lines. A line
  of spaces does not separate paragraphs. In a run of three line feeds only
  the first two are cut, so the next paragraph starts with `\n` and a
  heading there is not seen: `"x\n\n\n# H"` gives no chunk at all
  (`Scenarios.TripleBreakHidesHeading`). The tag pass empties a line that
  holds only a tag and keeps its line feed. When that line follows a text
  line and comes before a blank line, this leaves such a run:
  `Intro\n<X/>\n\n# H` becomes `Intro\n\n\n# H`.

## Model

| member | source | states |
|---|---|---|
| Frontmatter.ExtractMetadata | main.py:22-25 | text in which `---` does not occur twice (without overlap) comes back whole as the content, with empty metadata |
| Frontmatter.ExtractBetweenFirstTwo | main.py:22-36 | when the first two delimiters sit at i and j, the metadata is the parser's reading of the text strictly between them (empty on a parse error) and the content is the stripped text after the second one, later delimiters included |
| Frontmatter.SplitAtFirstTwo | main.py:22-28 | the split has at least three parts; part 1 is the text between the first two delimiters; re-joining parts 2.. gives back the text after the second delimiter |
| Frontmatter.FirstTwoExist | main.py:22-23 | whenever `---` occurs twice, a first and a second occurrence exist, so the two cases above cover every input |
| Frontmatter.ParserOnlyAffectsMetadata | main.py:28-36 | the article content does not depend on the YAML parser |
| Delimited.FindFrom | main.py:22 | an index found is at or after the start position and leaves room for the separator |
| Delimited.SplitFrom | main.py:22 | the split from a position has at least one part |
| Delimited.Split | main.py:22 | `str.split` with a non-empty separator always gives at least one part |
| Delimited.Join | main.py:28 | the joined text is as long as all the parts plus one separator between each two |
| Delimited.FindLeftmost | main.py:22 | the search finds the leftmost occurrence of the separator from a position, or reports that there is none |
| Delimited.SplitThreePieces | main.py:22-23 | the split has at least three parts exactly when the separator occurs twice without overlap |
| Delimited.SplitPiecesFree | main.py:22 | no part of a split contains the separator |
| Delimited.JoinSplit | main.py:22-28 | joining the parts of a split with the separator gives back the text |
| Delimited.SplitFirstTwo | main.py:22-28 | given the first two occurrences, parts 0 and 1 are the text before and between them, and parts 2.. re-join to the rest |
| Strings.Strip | main.py:28 | the result has no whitespace at either end and is the input with only whitespace removed at the ends |
| Strings.StripUnique | main.py:28 | removing leading and trailing whitespace down to non-space ends gives exactly the strip |
| Strings.StripIdempotent | main.py:28 | stripping twice is stripping once |
| Cleaner.RemoveImportsFrom | main.py:55-56 | the line pass from a position yields no more characters than remain |
| Cleaner.RemoveImports | main.py:55-56 | the line pass never lengthens the text |
| Cleaner.RemoveImportsKeepsUpTo | main.py:55-56 | up to the first import line the text is kept unchanged; that line and its line feed are dropped, and the pass carries on after it |
| Cleaner.RemoveImportsSubseq | main.py:55-56 | the line pass only deletes characters |
| Cleaner.RemoveImportsIdentity | main.py:55-56 | the line pass leaves the text unchanged exactly when no line starts with `import ` |
| Cleaner.RemoveImportsComplete | main.py:55-56 | no line of the line pass's result starts with `import ` |
| Cleaner.RemoveTagsFrom | main.py:58 | the tag pass from a position yields no more characters than remain |
| Cleaner.RemoveTags | main.py:58 | the tag pass never lengthens the text |
| Cleaner.RemoveTagsKeepsUpTo | main.py:57-58 | up to the first tag the text is kept unchanged; the tag is dropped, and the pass carries on after it |
| Cleaner.TagStartsAt | main.py:58 | the pass's test at a `<` holds exactly when a tag starts there |
| Cleaner.RemoveTagsSubseq | main.py:58 | the tag pass only deletes characters |
| Cleaner.RemoveTagsIdentity | main.py:58 | the tag pass leaves the text unchanged exactly when it contains no tag |
| Cleaner.RemoveTagsComplete | main.py:58 | the tag pass's result contains no tag |
| Cleaner.Clean | main.py:53-59 | the cleaned text has no whitespace at either end, only deletes characters, contains no tag, and is the plain strip of text with no import line and no tag; what each pass keeps and drops for any other text is given by the KeepsUpTo and Identity lemmas of the two passes |
| Cleaner.CleanReference | main.py:53-59 | text with no import line and no tag is only stripped |
| Cleaner.StripKeeps | main.py:59 | stripping only deletes characters and creates no tag |
| Scenarios.IndentedImportSurvives | main.py:55-59 | an article that is a single import statement indented by one space survives cleaning with the space stripped off; cleaning it again yields nothing |
| Scenarios.CleanNotIdempotent | main.py:53-59 | cleaning is not idempotent: some text cleans to a text that cleans to something else (` import x` cleans to `import x`, which cleans to nothing) |
| Chunker.Sections | main.py:43-50 | the loop over the paragraphs written as a fold (`SectionsBelow`): one chunk per heading paragraph; each chunk is described independently by `Chunker.SectionsByHeadings` |
| Chunker.CreateChunks | main.py:39-50 | the loop yields the fold `Sections` of the paragraphs, and so one chunk per heading paragraph, every chunk after the first starting with a heading |
| Chunker.SectionsPerHeading | main.py:43-48 | after each paragraph there is one chunk per heading so far, and the open chunk starts at the last heading |
| Chunker.SectionsByHeadings | main.py:43-48 | for every heading k, chunk k holds the paragraphs from the heading before heading k (or the start) up to heading k, each followed by a line feed |
| Chunker.SectionCount | main.py:43-46 | the number of chunks is the number of heading paragraphs |
| Chunker.LaterSectionsStartWithHeading | main.py:44-46 | each chunk after the first begins with the heading paragraph that opened it |
| Chunker.EmptySection | main.py:41-48 | a chunk is empty exactly when it is the first and the text opens with a heading; every other chunk ends with a line feed |
| Chunker.SectionsThenTail | main.py:43-48 | the chunks so far followed by the open chunk give back every paragraph read so far, in order |
| Chunker.DroppedTail | main.py:43-50 | the chunks hold exactly the paragraphs before the last heading; that heading and what follows are lost |
| Scenarios.SingleSectionLost | main.py:43-50 | a heading followed by one plain paragraph gives a single empty chunk |
| Scenarios.TripleBreakHidesHeading | main.py:43-50 | three line feeds in a row split as two, so the paragraph after them starts with a line feed, a heading there is not seen, and no chunk is emitted |
| Scenarios.HeadingOnlyArticleLost | main.py:43-50 | an article that is one heading paragraph gives a single empty chunk |
| Indexer.FirstEmbedding | main.py:82-85 | there is no vector exactly when the service's list is empty; otherwise the vector is the first embedding |
| Indexer.Payload | main.py:92-95 | the payload has the metadata's keys plus `content`, maps `content` to the chunk, and keeps every other entry |
| Indexer.StoreArticle | main.py:88-106 | existing points are untouched; one point is appended per embedded chunk, in chunk order, carrying that chunk's identifier, first embedding and payload; chunks without an embedding are skipped |
| Query.SearchText | main.py:120 | the search text is the instruction followed by the prompt |
| Query.SearchTextRecoversPrompt | main.py:120 | the prompt is everything in the search text after the instruction |
| Query.AugmentedPrompt | main.py:141-151 | the augmented prompt is as long as the template pieces, passages and prompt together |
| Query.AugmentedPromptRecovers | main.py:141-151 | the template's opening, middle and closing pieces, the passages and the prompt all appear verbatim, at offsets that depend only on the length of the passages, so the whole prompt is fixed by its two inputs |

## Left out

- Reading the article file (line 19-20), `print` and `input`: the model starts from the file's text and the prompt.
- The YAML parser is a parameter returning metadata or an error. A document that parses to something other than a mapping (`None` for empty frontmatter, a list, a scalar) is not modelled.
- Frontmatter.ExtractMetadata: metadata values are opaque. Only a string value is given a form, as the `content` entry needs one.
- The HTTP calls to the embedding and generation services (lines 62-85, 122-127, 153): the embedding service is a parameter returning its `embeddings` list. `generate_response` and its request options are not modelled.
- The vector collection's setup (lines 9-15) is not modelled. `upsert` is modelled as an append, since every identifier is fresh.
- `uuid.uuid4()` is a parameter giving the identifier for each chunk position.
- Indexer.StoreArticle: does not model an HTTP or store failure part-way, which in the program raises and leaves earlier points stored.
- The vector search (`query_points`, cosine similarity, top 10) and the rendering of the retrieved passages (lines 129-137): the passages reach the model as one text.
- `main()` takes the first embedding of the query without checking for an empty list (line 127). That raises, and is not modelled.
- The commented-out ingestion loop (lines 110-117), including the `slug` entry, is not modelled.
- basic_rag.py is not part of this model.
- Strings.Strip: whitespace is the ASCII subset of Python's `str.isspace` (tab through carriage return, `\x1c` to `\x1f`, space). Other Unicode spaces are not stripped.
- Delimited.Split: requires a non-empty separator. Python raises on an empty one, and every call site passes a constant.
