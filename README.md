# Quote viewer and record normaliser, in Dafny

This project models the two pieces of deterministic logic in the random quotes
generator and proves properties about them:

- **The viewer** (`app/app.py`). `get_all_tags` collects every tag of the
  loaded records into a set and returns it sorted. `filter_using_tags` keeps
  the records whose tags include every selected tag. The carousel in `main`
  keeps two values in Streamlit's session state: `quote_index` and
  `active_tags`. A new selection resets the index. The index is reduced
  modulo the number of filtered records just before display, and the
  Previous/Next buttons move it by one. The session is the class
  `Viewer.Session`, with one method per step and `Run` for one whole run of
  the script.
- **The normaliser** (`scripts/normalize_quotes.py`). `clean_text` chains
  `strip()`, `strip('“”"\'')`, `replace("\n", " ")` and `strip()`. The loop of
  `normalize_quotes` turns each raw record into one output record. It fills
  in `"Unknown"` for a missing or empty author and `[]` for missing tags, and
  sets `source` to `"quotes.toscrape.com"`.

Modules:

- `Wrappers` holds `Option`, which stands for a JSON key that may be absent.
- `StringOrder` holds Python's `<` on `str` and strict sortedness. It also has
  insertion into a sorted list, which is how the model does `sorted` on a set.
- `PyStrings` holds `str.isspace`, both forms of `str.strip`, and
  `str.replace` of one character by another.
- `Viewer` models `app/app.py`.
- `Normalizer` models `scripts/normalize_quotes.py`.

A Streamlit click triggers a script run. In that run the index is reduced, the
card is drawn, and the button's `±1` is then applied before `st.rerun()`. The
record the click leads to is shown by the next run. `Viewer.AfterRun` and
`Viewer.AfterRuns` follow exactly this order. `st.stop()` on an empty filter
result becomes `Render` returning `None` and leaving the index untouched.

Points where the code does less than its comments or wording suggest:

- The docstring of `clean_text` (scripts/normalize_quotes.py:8-12) says it
  strips quotes and normalises whitespace. On line 17 the quote strip runs
  only once, after the first whitespace strip. So only the intermediate
  string is free of edge quotes (`QuoteStripped`), and `'" "a'` cleans to
  `'"a'` (`CleanTextCanKeepLeadingQuote`).
- The same docstring says "Normalize whitespace". The code only replaces
  `'\n'` by a space (`.replace("\n", " ")`, line 17). Runs of spaces, tabs and
  `'\r'` inside the text stay as they are.
- The reset test at app/app.py:158 compares lists, not sets. Picking the same
  tags in a different order therefore counts as a change and resets the
  index. The model keeps the selection as `seq<string>`.
- Previous and Next store `index - 1` and `index + 1` unreduced
  (app/app.py:182 and :187). The reduction happens on the next run, at
  line 170. The model stores the unreduced value, and the wrap-around lemmas
  are stated on what is displayed.

## Model

| member | source | states |
|---|---|---|
| `StringOrder.LessIrreflexive` | app/app.py:23 | No string sorts before itself. |
| `StringOrder.LessTransitive` | app/app.py:23 | Python's string order is transitive. |
| `StringOrder.LessTotal` | app/app.py:23 | Any two different strings are ordered one way or the other, so `sorted` of a set of strings is well defined. |
| `StringOrder.Less` | app/app.py:23 | Python's `<` on `str`, which `sorted` uses: compares code points from the left. A proper prefix comes before its extensions, and a smaller first code point decides. |
| `StringOrder.LessAsymmetric` | app/app.py:23 | No two strings are each below the other. |
| `StringOrder.StrictlySortedUnique` | app/app.py:23 | Two strictly increasing lists with the same members are equal, so the list `sorted` returns for a set is fully determined by its contract, whatever the sorting algorithm. |
| `StringOrder.StrictlySortedDistinct` | app/app.py:19-23 | A strictly increasing list of tags has no duplicates. |
| `StringOrder.Insert` | app/app.py:23 | Inserting into a strictly increasing list keeps it strictly increasing. The result holds exactly the old elements plus the new one. |
| `Viewer.TagsOf` | app/app.py:21 | `q.get("tags", [])`: the record's tags, or none when it has no `tags` key. |
| `Viewer.SortedTags` | app/app.py:23 | `sorted(tags)` is strictly increasing and holds exactly the members of the set. |
| `Viewer.GetAllTags` | app/app.py:18-23 | The result is strictly increasing (sorted, no duplicates). A string is in it exactly when it is a tag of some record, where a record with no `tags` key has none. |
| `Viewer.ToSet` | app/app.py:31 | Python's `set(xs)`: holds exactly the elements of the list. |
| `Viewer.HasAllTags` | app/app.py:31 | `set(selected_tags).issubset(set(q.get("tags", [])))`: holds exactly when the set of selected tags is included in the set of the record's tags. |
| `Viewer.KeepMatching` | app/app.py:29-32 | Every kept record carries every selected tag. Each record that carries them all is kept as often as it occurs in the input, and any other record never. The result is an order-preserving subsequence of the input. |
| `Viewer.FilterByTags` | app/app.py:25-32 | An empty selection returns the input unchanged. Otherwise: every returned record's tags are a superset of the selection, every input record whose tags are a superset is returned with its multiplicity, and the order of the input is kept. |
| `Viewer.FilterIdempotent` | app/app.py:29-32 | Filtering the filtered list again by the same selection gives the same list. |
| `Viewer.FilterScenario` | app/app.py:25-32 | Records tagged `[a]`, `[a,b]`, `[b]` filtered by `[a]` give exactly the first two, in order. |
| `Viewer.Session.constructor` | app/app.py:139-142 | A new session starts with index 0 and no active tags. |
| `Viewer.Session.SelectTags` | app/app.py:157-160 | Afterwards the active tags are the selection. A selection different from the previous one sets the index to 0 whatever it was; an equal one leaves it alone. |
| `Viewer.Session.Render` | app/app.py:162-171 | If no record matches the active tags, nothing is shown and the index is not touched. Otherwise the index becomes the old index modulo the filtered count, lies in `[0, count)`, and the record shown is the filtered record at that index. |
| `Viewer.Session.Previous` | app/app.py:181-183 | The index goes down by one; the tags do not change. |
| `Viewer.Session.Next` | app/app.py:186-188 | The index goes up by one; the tags do not change. |
| `Viewer.Session.Run` | app/app.py:157-188 | One run of the script. The active tags become the selection. The index starts from 0 if the selection changed. Nothing is shown and no button acts when the filter result is empty. Otherwise the shown record is the one at the reduced index, and the stored index is `AfterRun` of it. |
| `Viewer.AfterRun` | app/app.py:170-188 | The index a displaying run leaves behind lies in `[-1, n]`: it never needs clamping. The next run displays the old position moved by the button, cyclically modulo `n`. |
| `Viewer.Displayed` | app/app.py:170-171 | The displayed position is in `[0, n)` and differs from the stored index by a multiple of `n`. |
| `Viewer.NextRunsAdvance` | app/app.py:170-188 | After `k` runs that each pressed Next, the displayed position is `(start + k) mod n`. |
| `Viewer.NextWrapsAround` | app/app.py:170-188 | `n` presses of Next on `n` filtered records show the same record again. |
| `Viewer.AfterRuns` | app/app.py:170-188 | The index after a series of runs over the same filtered list. After at least one run it lies in `[-1, n]`. |
| `Viewer.StayAbsorbed` | app/app.py:183-188 | The `st.rerun()` run after a click presses no button, and it changes nothing for the run after it. |
| `Viewer.Clicks` | app/app.py:181-188 | `k` clicks give `2k` runs, and run `i` is the button's action when `i` is even and the no-button rerun (`Stay`) when `i` is odd: each click is the run where the button returns true, followed by the rerun it causes. |
| `Viewer.NextClicksAdvance` | app/app.py:170-188 | After `k` clicks on Next, each followed by its rerun, the displayed position is `(start + k) mod n`. |
| `Viewer.NextClicksWrapAround` | app/app.py:170-188 | `n` clicks on Next over `n` filtered records, reruns included, show the same record again. |
| `Viewer.PreviousWrapsAround` | app/app.py:170-183 | Previous on the first record, followed by the next run's reduction, shows position `n - 1`. |
| `Viewer.PreviousFromFirstScenario` | app/app.py:139-188 | A new session over two records with no tags selected: the run where Previous is clicked shows the first record, and the rerun that follows shows the second. |
| `PyStrings.IsSpace` | scripts/normalize_quotes.py:17 | Python's `str.isspace()`, the characters `strip()` removes: U+0009-U+000D, U+001C-U+0020, U+0085, U+00A0, U+1680, U+2000-U+200A, U+2028, U+2029, U+202F, U+205F, U+3000. |
| `PyStrings.FirstKept` | scripts/normalize_quotes.py:17 | The left end found by `strip`: everything before it is dropped, and the character at it is not. |
| `PyStrings.LastKept` | scripts/normalize_quotes.py:17 | The right end found by `strip`, never left of the left end: everything from it on is dropped, and the character before it is not. |
| `PyStrings.StripBy` | scripts/normalize_quotes.py:17 | The result is a contiguous piece of the input. Everything cut off on either side is a dropped character, and the result neither starts nor ends with one. It is empty exactly when every character is dropped. |
| `PyStrings.StripByIs` | scripts/normalize_quotes.py:17 | These conditions determine the result: any bounds that meet them are the ones `strip` returns. |
| `PyStrings.Strip` | scripts/normalize_quotes.py:17 | `s.strip()` cuts only Python whitespace, and its result neither starts nor ends with whitespace. |
| `PyStrings.StripChars` | scripts/normalize_quotes.py:17 | `s.strip(chars)` cuts only characters of `chars`, and its result neither starts nor ends with one. |
| `PyStrings.ReplaceChar` | scripts/normalize_quotes.py:17 | Same length. Each `a` becomes `b`; every other character is unchanged. |
| `Normalizer.QuoteStripped` | scripts/normalize_quotes.py:17 | After `strip().strip('“”"\'')` the string neither starts nor ends with `“ ” " '`. |
| `Normalizer.CleanText` | scripts/normalize_quotes.py:7-17 | Empty input gives `""`. The result contains no `'\n'` and has no leading or trailing whitespace. |
| `Normalizer.CleanTextScenario` | scripts/normalize_quotes.py:17 | `clean_text("“Hello.”\n") == "Hello."`. |
| `Normalizer.CleanTextCanKeepLeadingQuote` | scripts/normalize_quotes.py:17 | `clean_text('" "a') == '"a'`: the final result may still start with a quote character. |
| `Normalizer.AuthorOrUnknown` | scripts/normalize_quotes.py:31 | The author is never empty. An absent, null or empty author becomes `"Unknown"`; a non-empty one is kept. |
| `Normalizer.WellFormed` | scripts/normalize_quotes.py:27-35 | What every output record satisfies: the author is non-empty, the text has no newline and no whitespace at either end, and the source is `"quotes.toscrape.com"`. |
| `Normalizer.Normalize` | scripts/normalize_quotes.py:27-35 | The output record is well-formed: the author is non-empty, the text has no newline and no edge whitespace, and the source is `"quotes.toscrape.com"`. The id is the one supplied; text, author and tags come from the raw record (tags default to `[]`). |
| `Normalizer.NormalizeQuotes` | scripts/normalize_quotes.py:24-35 | The output has as many records as the input, record `i` is the transform of input record `i` with the `i`-th fresh id, and every output record is well-formed. |
| `Normalizer.NormalizeScenario` | scripts/normalize_quotes.py:24-35 | `{"text": "“Hello.”\n", "author": "", "tags": ["a"]}` becomes text `"Hello."`, author `"Unknown"`, tags `["a"]`, source `"quotes.toscrape.com"`. |

## Left out

- `load_quotes`: reading and parsing the JSON file, the missing-file error and `st.cache_data` are I/O and a framework cache. The records are a parameter.
- `quote_card`: the HTML/CSS/JS template, `html.escape` and the client-side typewriter animation are rendering. `Render` returns the record that would be drawn.
- `get_random_quote`: it uses `random.choice`, and `main` never calls it.
- Streamlit calls (`st.set_page_config`, `st.title`, `st.sidebar`, `st.multiselect`, `st.divider`, `st.caption`, `st.warning`, `st.columns`, `st.button`, `st.rerun`) are rendering and events. The selection and the pressed button are parameters of `Run`. `st.stop()` is `Render` returning `None`.
- The tag selection is any list of strings. The model does not require it to be drawn from the `get_all_tags` options, as `st.multiselect` ensures.
- `uuid.uuid4()`: the ids are randomness. The caller supplies them as `freshId`, and nothing is proved about their uniqueness.
- JSON reading and writing, the `print`, and the missing-input check in `__main__` of the normaliser are I/O.
- Values of the wrong JSON type are not modelled (a number as author, or `"tags": null`, which `.get` would copy as null). Text and author are strings or absent/null; tags are a list of strings or absent.
- scraper/scraper/spiders/quotes_spider.py is not part of this model: it is network crawling and CSS selection in Scrapy.
- Python's `sorted` is Timsort. The model builds the list by insertion instead. On a set of distinct strings with a total order both give the same list: `StringOrder.StrictlySortedUnique` proves that the contract fixes that list.
