/** Splitting an MDX article into its YAML front matter and its body
    (`extract_metadata_from_mdx`), over the file's text. */
module Frontmatter {
  import opened Wrappers
  import opened Strings
  import opened Delimited

  /** A metadata value. YAML strings are kept as text; any other YAML value
      (number, date, list, mapping) is carried as an opaque rendering, since
      the pipeline never looks inside it. */
  datatype Value = Text(text: String) | Other(rendering: String)

  type Metadata = map<String, Value>

  /** The YAML loader: None stands for a `YAMLError`. */
  type YamlParser = String -> Option<Metadata>

  /** What the extractor hands back: the metadata and the article text. */
  datatype Article = Article(metadata: Metadata, content: String)

  /** The front matter delimiter. It is matched anywhere in the text, not only
      on a line of its own. */
  const Delimiter: String := "---"

  /** `i` and `j` are the first two delimiters a left-to-right scan finds. */
  ghost predicate FirstTwoDelimiters(s: String, i: int, j: int) {
    && Occurs(s, Delimiter, i)
    && Occurs(s, Delimiter, j)
    && i + |Delimiter| <= j
    && (forall q :: 0 <= q < i ==> !Occurs(s, Delimiter, q))
    && (forall q :: i + |Delimiter| <= q < j ==> !Occurs(s, Delimiter, q))
  }

  /** `extract_metadata_from_mdx` after the file has been read. */
  function ExtractMetadata(text: String, parse: YamlParser): (a: Article)
    ensures !OccursTwice(text, Delimiter) ==> a == Article(map[], text)
  {
    var parts := Split(text, Delimiter);
    SplitThreePieces(text, Delimiter);
    if |parts| < 3 then Article(map[], text)
    else
      var body := Strip(Join(parts[2..], Delimiter));
      match parse(parts[1])
      case None => Article(map[], body)
      case Some(metadata) => Article(metadata, body)
  }

  /** With two delimiters in the text, the metadata is what the loader makes
      of the text between the first two (nothing when it fails), and the
      article is everything after the second, stripped; the text before the
      first is dropped and later delimiters are kept verbatim. */
  lemma {:induction false} ExtractBetweenFirstTwo(text: String, parse: YamlParser, i: nat, j: nat)
    requires FirstTwoDelimiters(text, i, j)
    ensures ExtractMetadata(text, parse)
            == Article(parse(text[i + |Delimiter|..j]).GetOr(map[]), Strip(text[j + |Delimiter|..]))
  {
    SplitAtFirstTwo(text, i, j);
  }

  /** The pieces the extractor uses, in terms of the first two delimiters. */
  lemma {:induction false} SplitAtFirstTwo(text: String, i: nat, j: nat)
    requires FirstTwoDelimiters(text, i, j)
    ensures |Split(text, Delimiter)| >= 3
    ensures Split(text, Delimiter)[1] == text[i + |Delimiter|..j]
    ensures Join(Split(text, Delimiter)[2..], Delimiter) == text[j + |Delimiter|..]
  {
    FindFirst(text, Delimiter, 0, i);
    FindFirst(text, Delimiter, i + |Delimiter|, j);
    SplitFirstTwo(text, Delimiter, i, j);
  }

  /** Two delimiters without overlap are always found by the scan. */
  lemma {:induction false} FirstTwoExist(text: String)
    requires OccursTwice(text, Delimiter)
    ensures exists i, j :: FirstTwoDelimiters(text, i, j)
  {
    FindLeftmost(text, Delimiter, 0);
    var i := FindFrom(text, Delimiter, 0).value;
    FindLeftmost(text, Delimiter, i + |Delimiter|);
    var j := FindFrom(text, Delimiter, i + |Delimiter|).value;
    assert FirstTwoDelimiters(text, i, j);
  }

  /** Whatever the YAML loader does, the article text is the same: a parse
      failure only empties the metadata. */
  lemma {:induction false} ParserOnlyAffectsMetadata(text: String, parse: YamlParser, parse': YamlParser)
    ensures ExtractMetadata(text, parse).content == ExtractMetadata(text, parse').content
  {
  }
}
