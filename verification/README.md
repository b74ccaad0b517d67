# Aftonbladet keyword scraper — search driver and timestamp decoding

This project models the core of `Scraper` in `scraper.py`, a Python 2 program. For each keyword, the program fetches the
publication's search result list and decodes the "created (uppdaterad updated)" timestamp fragment of each result. It
keeps the articles created inside the caller's window `[after, before)`, renders each of them as HTML and joins them in
listing order. The joined HTML goes through a tidy pass, and the reports of all keywords are concatenated.

Three modules:

- `Text` (`text.dfy`) models the Python string operations the scraper relies on:
  - `strip()` on text and on byte strings (`Strip`). The timestamp fragment and the link address are text and use the
    whitespace class `IsSpace`; the UTF-8 encoded title and the keywords are byte strings and use `IsAsciiSpace`;
  - `find` (`Find`);
  - the in-order concatenation that every `acc += …` loop builds (`ConcatMap`), with its laws.
- `Timestamps` (`timestamps.dfy`) models `_parsedate` and `_get_created_updated`. The lenient date parser is a function
  parameter that returns a `DateTime` whose zone is optional. The sentinel pair `(0, 0)` is the explicit value
  `Unavailable`.
- `Scraper` (`scraper.py`'s driver, in `scraper.dfy`) models these:
  - `_search_keyword` as `SearchKeyword`, a method whose loop walks the listing items in order;
  - `search_keywords` as `SearchKeywords`;
  - `_tostring` as `ToString`.

  Each method is proved against a specification function: `KeywordReport`, `Report` or `ConcatMap`. The lemmas beside
  them state the selection rule, the ordering, and that unselected items contribute nothing.

The program's collaborators are fields of the record `Scraper.Collaborators`:
- the HTTP fetch and HTML parsing of the result page (`fetch`, from an address to its list items);
- the date parser (`parse`);
- the time-zone database (`utcOffset`);
- `_get_article` (`article`);
- the tidy pass (`tidy`).

Dates are compared as Python 2.7 compares aware datetimes. A `Zone` stands for one `tzinfo` object: a zone name and
which of that zone's objects it is. Two dates holding the same object are compared by their wall-clock readings. Two
dates holding different objects are compared by the instants they denote, even when both objects belong to the same
zone name (`Scraper.Earlier`). `_parsedate` attaches the object `pytz.timezone('Europe/Stockholm')` returns (local mean
time), which is not the object `localize` gives a date of the same zone.

## Model

| member | source | states |
|---|---|---|
| `Text.Strip` | scraper.py:101 | `strip()` leaves no whitespace at either end and never lengthens the text |
| `Text.SkipSpace` | scraper.py:101 | the scan stops at the first non-whitespace character at or after its start, having passed only whitespace |
| `Text.SkipSpaceBack` | scraper.py:101 | the backward scan stops just after the last non-whitespace character before its end, having passed only whitespace |
| `Text.StripBounds` | scraper.py:101 | the result of `strip()` is a slice `s[i..j]`, and only whitespace lies before `i` and from `j` on |
| `Text.StripUnique` | scraper.py:101 | `strip()` is determined by its cut points: any slice with non-white ends and only whitespace outside it is the result |
| `Text.StripTrimmed` | scraper.py:108 | a text with non-white ends is left unchanged by `strip()` |
| `Text.Find` | scraper.py:102 | `find` gives -1 exactly when the pattern does not occur; otherwise it gives an occurrence with none before it |
| `Text.ConcatMapAppend` | scraper.py:115-117 | accumulating over two lists one after the other equals accumulating over their join |
| `Text.ConcatMapAt` | scraper.py:115-117 | the piece of element `i` sits between the pieces of the elements before and after it |
| `Text.ConcatMapFilter` | scraper.py:66-82 | accumulating a piece that is empty outside a predicate equals accumulating over the filtered list |
| `Timestamps.ParseDate` | scraper.py:94-98 | the result always has a zone and keeps the parser's wall-clock reading; it is the parser's result unchanged when that has a zone, and otherwise carries Europe/Stockholm |
| `Timestamps.Split` | scraper.py:100-108 | the cut fails exactly when the stripped fragment has no `(uppdaterad` or does not end in `)` |
| `Timestamps.CreatedUpdated` | scraper.py:100-112 | the sentinel is returned exactly when the fragment is not well formed. Otherwise, with `d` the stripped fragment and `cut` its first `(uppdaterad`, the created date is `_parsedate` of `d[..cut]` stripped and the updated date is `_parsedate` of `d[cut..]` |
| `Timestamps.SplitAt` | scraper.py:101-108 | a well-formed fragment is cut at the first marker of its stripped text, and both halves are stripped |
| `Timestamps.SplitUpdated` | scraper.py:102-108 | for a well-formed fragment, the updated segment is the stripped text from the first marker on, unchanged by the second strip. It starts with the marker and ends in `)`, and the stripped text is the part before the cut followed by it |
| `Timestamps.SplitCreated` | scraper.py:102-107 | for a well-formed fragment, the created segment is the stripped text before the first marker, stripped again. No marker starts before the cut, so neither that text nor the created segment holds one |
| `Timestamps.TailTrimmed` | scraper.py:108 | the text from the marker to the final `)` is left unchanged by `strip()` |
| `Timestamps.NoneBefore` | scraper.py:102-107 | when no marker starts before the cut, neither the text before the cut nor its stripped form holds one |
| `Timestamps.StampsAreAware` | scraper.py:109-110 | a well-formed fragment yields two dates, and each keeps the wall-clock reading the parser gave for its segment |
| `Timestamps.TrailingTextIsUnavailable` | scraper.py:104-105 | any fragment whose stripped text is empty or does not end in `)` decodes to the sentinel, whatever markers it holds |
| `Scraper.Earlier` | scraper.py:77 | whenever the two dates hold different `tzinfo` objects, or their offsets agree, `a < b` is the order of the instants they denote |
| `Scraper.LocalMeanTimeAgainstLocalized` | scraper.py:77 | a date at 00:05 holding the Stockholm object of local mean time (+01:12) is earlier than 00:00 under the Stockholm object of central European time (+01:00), so such an article is not taken at that lower bound |
| `Scraper.SearchKeyword` | scraper.py:49-84 | the returned document is the tidy pass applied to the accumulated articles of the listing fetched from the search address plus the keyword |
| `Scraper.SearchKeywords` | scraper.py:87-92 | the report is the in-order concatenation of the per-keyword reports of the stripped keywords; an empty list gives `""` |
| `Scraper.ToString` | scraper.py:114-118 | the result is the in-order concatenation of the string forms of the elements; an empty input gives `""` |
| `Scraper.ArticlesAreTakenItems` | scraper.py:66-82 | the accumulated HTML is the rendered articles of exactly the taken items, in listing order |
| `Scraper.SelectionAt` | scraper.py:71-82 | for an item whose fragment decodes, its article is added between the contributions of the items before and after it. This happens exactly when its first class is `resultInfo` and `after <= created < before`; otherwise it adds nothing |
| `Scraper.NothingTaken` | scraper.py:74-82 | a listing with no taken item accumulates `""` |
| `Scraper.ArticlesAppend` | scraper.py:66-82 | the scan keeps no state between items: scanning a join is scanning each part in turn |
| `Scraper.WindowHalfOpen` | scraper.py:77 | the window is closed below and open above: an article created exactly at `after` is taken, and one created exactly at `before` is not |
| `Scraper.ReportAppend` | scraper.py:87-92 | the report of a joined keyword list is the joined reports, and an empty list reports `""` |

## Left out

- The HTTP requests and HTML parsing (scraper.py:50-59, 69-71, 124-128) are not modelled. A listing is the `fetch`
  collaborator's list of `Item` records, and each record holds the four values the loop reads from an `li`.
- A missing result list container, a missing `span` or a `span` without a class attribute (scraper.py:56-59, 71-72)
  crash the source through the HTML library; the model has no such path.
- `_get_article` (scraper.py:123-164), the `_dstr` formatting (scraper.py:120-121) and the wall clock it reads are not
  modelled; `_get_article` is the opaque `article` collaborator. `_tostring` is modelled on its own by `ToString`.
- The tidylib option set (scraper.py:21-44) and `tidy_document` (scraper.py:83) are not modelled. The tidy pass is
  the opaque `tidy` collaborator, and its error output is dropped, as in the source.
- `reload(sys)` and the default-encoding change (scraper.py:17-18) are not modelled. Strings are sequences of
  characters, and the UTF-8 encoding of the title (scraper.py:78) is not modelled. Stripping ASCII whitespace from the
  encoded bytes removes the same characters as `IsAsciiSpace` does from the text.
- The fuzzy parsing of `dateutil` (scraper.py:95) is not modelled: it is the `parse` collaborator. That parser raises
  an error when it finds no date; the model's parser is total, so this error path is not modelled.
- The time-zone database is not modelled. The offset a `tzinfo` object gives at a wall-clock reading comes from the
  `utcOffset` collaborator, including the local mean time offset of the object `replace(tzinfo=…)` attaches
  (scraper.py:97). The window bounds are whatever objects the caller built them with.
- Sentinel items: when an article item's fragment does not decode, the source compares the integer `0` with the
  window's datetimes (scraper.py:77), and the outcome depends on Python 2's mixed-type comparison. The model excludes
  such items; the window lemmas are stated for items whose fragment decodes.
- `SearchKeywords`: the keywords are taken to be byte strings, as they are when they come from the command line
  (`sys.argv`), so `keyword.strip()` (scraper.py:90) removes ASCII whitespace only (`IsAsciiSpace`). Text-string
  keywords, whose `strip()` also removes other Unicode whitespace, are not modelled.
- The window bounds are aware dates (the `Aware` type), because the source compares them with aware dates.
- The unused dictionary `self._articles` (scraper.py:47) is not modelled.
- Pagination, deduplication by address, response caching and fetch retry are not modelled, because none of them
  exists in this code.
