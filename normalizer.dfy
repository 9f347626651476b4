/**
 * scripts/normalize_quotes.py: cleaning the text of a scraped quote and turning
 * each raw record into a normalised one.
 */
module Normalizer {
  import opened Wrappers
  import opened PyStrings

  /** The characters `strip('“”"\'')` removes. */
  const QuoteChars: set<char> := {'\U{201C}', '\U{201D}', '"', '\''}

  const UnknownAuthor: string := "Unknown"
  const Source: string := "quotes.toscrape.com"

  /** A scraped record; `None` stands for a key that is absent (or, for text and author, null). */
  datatype RawQuote = RawQuote(text: Option<string>, author: Option<string>, tags: Option<seq<string>>)

  datatype NormalizedQuote = NormalizedQuote(
    id: string, text: string, author: string, tags: seq<string>, source: string)

  /** The first two steps of `clean_text`: `text.strip().strip('“”"\'')`. */
  function QuoteStripped(text: string): (t: string)
    ensures t == [] || (t[0] !in QuoteChars && t[|t| - 1] !in QuoteChars)
  {
    StripChars(Strip(text), QuoteChars)
  }

  /** `clean_text`. */
  function CleanText(text: string): (r: string)
    ensures |text| == 0 ==> r == ""
    ensures '\n' !in r
    ensures r == [] || (!IsSpace(r[0]) && !IsSpace(r[|r| - 1]))
  {
    if |text| == 0 then ""
    else
      var u := ReplaceChar(QuoteStripped(text), '\n', ' ');
      assert '\n' !in u;
      Strip(u)
  }

  /** `clean_text("“Hello.”\n") == "Hello."`. */
  lemma CleanTextScenario()
    ensures CleanText("\U{201C}Hello.\U{201D}\n") == "Hello."
  {
    var s := "\U{201C}Hello.\U{201D}\n";
    var a := "\U{201C}Hello.\U{201D}";
    var b := "Hello.";
    StripByIs(s, Spaces, 0, 8);
    assert s[0..8] == a;
    StripByIs(a, AnyOf(QuoteChars), 1, 7);
    assert a[1..7] == b;
    assert ReplaceChar(b, '\n', ' ') == b;
    StripByIs(b, Spaces, 0, 6);
    assert b[0..6] == b;
  }

  /**
   * Only the intermediate string is free of edge quotes: `'" "a'` cleans to
   * `'"a'`, which starts with a quote character.
   */
  lemma CleanTextCanKeepLeadingQuote()
    ensures CleanText("\" \"a") == "\"a"
    ensures CleanText("\" \"a")[0] in QuoteChars
  {
    var s := "\" \"a";
    var b := " \"a";
    StripByIs(s, Spaces, 0, 4);
    assert s[0..4] == s;
    StripByIs(s, AnyOf(QuoteChars), 1, 4);
    assert s[1..4] == b;
    assert ReplaceChar(b, '\n', ' ') == b;
    StripByIs(b, Spaces, 1, 3);
    assert b[1..3] == "\"a";
  }

  /** `quote.get("author") or "Unknown"`. */
  function AuthorOrUnknown(author: Option<string>): (r: string)
    ensures r != ""
    ensures author.Some? && author.value != "" ==> r == author.value
    ensures author.None? || author.value == "" ==> r == UnknownAuthor
  {
    match author
    case Some(a) => if a != "" then a else UnknownAuthor
    case None => UnknownAuthor
  }

  /** What every normalised record satisfies. */
  predicate WellFormed(n: NormalizedQuote) {
    && n.author != ""
    && '\n' !in n.text
    && (n.text == [] || (!IsSpace(n.text[0]) && !IsSpace(n.text[|n.text| - 1])))
    && n.source == Source
  }

  /** The dictionary built for one raw record, with `id` as its identifier. */
  function Normalize(q: RawQuote, id: string): (r: NormalizedQuote)
    ensures WellFormed(r)
    ensures r.id == id
    ensures r.text == CleanText(q.text.GetOr(""))
    ensures r.author == AuthorOrUnknown(q.author)
    ensures q.tags.Some? ==> r.tags == q.tags.value
    ensures q.tags.None? ==> r.tags == []
  {
    NormalizedQuote(
      id := id,
      text := CleanText(q.text.GetOr("")),
      author := AuthorOrUnknown(q.author),
      tags := q.tags.GetOr([]),
      source := Source)
  }

  /**
   * The loop of `normalize_quotes`: one output record per input record, in
   * order; `freshId(i)` is the identifier drawn for the `i`-th record.
   */
  method NormalizeQuotes(quotes: seq<RawQuote>, freshId: nat -> string) returns (normalized: seq<NormalizedQuote>)
    ensures |normalized| == |quotes|
    ensures forall i :: 0 <= i < |quotes| ==> normalized[i] == Normalize(quotes[i], freshId(i))
    ensures forall i :: 0 <= i < |normalized| ==> WellFormed(normalized[i])
  {
    normalized := [];
    for i := 0 to |quotes|
      invariant |normalized| == i
      invariant forall k :: 0 <= k < i ==> normalized[k] == Normalize(quotes[k], freshId(k))
    {
      var n := Normalize(quotes[i], freshId(i));
      normalized := normalized + [n];
    }
    forall i | 0 <= i < |normalized|
      ensures WellFormed(normalized[i])
    {
      assert normalized[i] == Normalize(quotes[i], freshId(i));
    }
  }

  /** The raw record `{"text": "“Hello.”\n", "author": "", "tags": ["a"]}`. */
  lemma NormalizeScenario(id: string)
    ensures Normalize(RawQuote(Some("\U{201C}Hello.\U{201D}\n"), Some(""), Some(["a"])), id)
         == NormalizedQuote(id, "Hello.", "Unknown", ["a"], "quotes.toscrape.com")
  {
    CleanTextScenario();
  }
}
