# ecomscrape core, modelled in Dafny

`ecomscrape` is a configurable e-commerce scraper. It loads a YAML or JSON
site configuration, plans the listing URLs to fetch, parses product
records out of the pages, and cleans each record into a product. A small
HTTP API then serves the stored products through a server-side filter.
This project models the deterministic core of that pipeline and proves
what it promises:

- **Cleaning** (`Cleaner`, with `Strings`, `Scan`, `Decimals` and
  `OrderedMaps`). It covers text normalisation, the price and review-count
  number scanners, rating lookup from class names, numbers and words,
  availability labels, the text hashed into a product id, and
  `clean_products`. The latter is modelled as the record-by-record mapping
  with the default-then-configured map merge.
- **The product filter** (`Api`). This is `_filter_products`: price bounds
  with the current-to-original price fallback, and a case-insensitive
  category match.
- **Configuration** (`Config`, with `JsonValues` and `Errors`). It covers
  the check on the file suffix and `_require`. It also covers `load_config`
  from the decoded document to a `ScraperConfig` or the error it raises, with
  every default.
- **URL planning and truncation** (`Planning`). This covers:
  - template expansion and the link-following walk, over an abstract site;
  - the mode dispatch of `_build_url_plan`;
  - the sequential page fetch;
  - the `max_products` truncation loop of `run`.

Python values are modelled explicitly. `None` is `Null`, and
`dict.get(k)` is a lookup that gives `Null` for a missing key.
Truthiness and `a or b` follow Python. Dictionaries are sequences of
bindings, so insertion order and "first match in map order" are visible.
Numbers are exact decimals: a mantissa and a count of fraction digits.
Exceptions the code raises are `Result` failures. These are `ConfigError`
variants, or `Raised(AttributeError | TypeError | ValueError)` for the
Python errors the code lets escape. The `:-` chains keep the order in
which the source would raise them. The network, the HTML selector
engine, `urljoin` and `str.format` are function parameters.

The `*_examples.dfy` modules prove the cases that the repository's unit
tests check, directly from the definitions.

## Model

| member | source | states |
|---|---|---|
| Strings.Normalise | ecomscrape/cleaner.py:36-39 | The normalised text has no NBSP, no leading or trailing whitespace and never two whitespace characters in a row. It keeps exactly the non-whitespace characters of its input and exactly its words (the maximal whitespace-free runs), so a whitespace run is compressed to one space, never deleted |
| CleanerExamples.SpaceSeparatesWords | ecomscrape/cleaner.py:39 | "a b" has the words "a" and "b", so its normal form is not "ab" |
| Strings.NormaliseIdempotent | ecomscrape/cleaner.py:36-39 | Normalising twice is normalising once |
| Cleaner.CleanPrice | ecomscrape/cleaner.py:42-56 | `None` gives `None`, a number passes through unchanged, and a text or class list gives `None` exactly when its normalised text has no digit |
| Cleaner.PriceIsFirstNumber | ecomscrape/cleaner.py:48-56 | A text's price is the value of the leftmost-longest match of the signed, comma-grouped price pattern, with its commas deleted; that literal is always one `float` accepts, so the `ValueError` branch is never taken |
| Scan.SearchIsRegexSearch | ecomscrape/cleaner.py:49 | The scanner behaves as `re.search`. With no result, no substring matches. Otherwise its match matches, no match starts further left, and no longer match starts at the same place |
| Scan.MatchIsLiteral | ecomscrape/cleaner.py:52-54 | Deleting the commas of a match leaves a valid number literal whose value is the one the scanner reports |
| Cleaner.CleanReviewCount | ecomscrape/cleaner.py:59-64 | The count is `None` exactly for `None` or a text without digits; otherwise it is a natural number |
| Cleaner.CountIsFirstDigitRun | ecomscrape/cleaner.py:62-64 | The count is the value of the first maximal digit run once commas are deleted |
| Cleaner.ListedWord | ecomscrape/cleaner.py:71-76 | For a class list, the rating is that of the first non-`None` entry whose lowercase form is a rating word, and is absent exactly when no entry is one |
| Cleaner.CleanRating | ecomscrape/cleaner.py:67-84 | `None` gives `None`; a listed class name wins; otherwise a number in the text wins; otherwise the rating of the first word, in map order, contained in the lowercase text; `None` exactly when there is neither a digit nor a contained word |
| Cleaner.NumberBeatsWords | ecomscrape/cleaner.py:77-80 | When no class name is listed and the text has a digit, the rating words play no part: the rating is the value of the first unsigned number |
| Cleaner.FirstContained | ecomscrape/cleaner.py:81-83 | The value of the first key, in map order, contained in the text, and absent exactly when no key is contained |
| Cleaner.StandardiseAvailability | ecomscrape/cleaner.py:87-97 | `None` gives `None`. Otherwise the label is the one of the first key, in map order, that the lowercase normalised text contains, or "unknown" when none matches. It is `None` only for empty text with no empty key |
| Cleaner.CleanedParts | ecomscrape/cleaner.py:102-103 | The id parts succeed exactly when every truthy part is a text (`strip` raises `AttributeError` otherwise); no kept part has an upper-case letter, and nothing is kept exactly when no part is truthy |
| Cleaner.CleanedPartsAreTruthyParts | ecomscrape/cleaner.py:102-103 | The cleaned parts are the truthy parts, in their order, each stripped and lowercased: a part is used exactly when it is truthy |
| Cleaner.IdBase | ecomscrape/cleaner.py:100-105 | The hashed text is the "|"-join of the cleaned truthy parts among product URL, source URL, title and category, in that order, or "unknown" when that join is empty. It is never empty, has no upper-case letter, and fails with `AttributeError` exactly when a truthy part is not a text |
| Cleaner.CleanPartIdempotent | ecomscrape/cleaner.py:103 | Cleaning an id part twice is cleaning it once |
| Cleaner.ConfiguredMapsOverrideDefaults | ecomscrape/cleaner.py:121-122 | With the configured maps merged over the defaults, a configured key's value wins and every other key keeps its default. Default keys keep their place in the first-match order, and new keys follow in configuration order |
| OrderedMaps.MergeFind | ecomscrape/cleaner.py:121-122 | Looking a key up in `{**base, **over}` finds the overriding value when the key is overridden and the base value otherwise |
| OrderedMaps.MergeShape | ecomscrape/cleaner.py:121-122 | `{**base, **over}` is the base bindings, overridden in place, followed by the new bindings of `over` in their order |
| Cleaner.CleanRecord | ecomscrape/cleaner.py:127-148 | The title is `title or name`, the name `name or title`, the category `category_val or "unknown"` (never falsy), the product URL `product_url or url`, and the currency the record's or else the run's. URL, image URL, source URL and description are passed through. Each cleaned field is its cleaner applied to the record's entry. The id text is `IdBase` of title, `category_val`, product URL and source URL, and the record fails exactly when that does, with `AttributeError` |
| Cleaner.CleanRecordReadsOnlyItsKeys | ecomscrape/cleaner.py:127-146 | Setting any key the loop does not read, to any value, leaves the product unchanged |
| Cleaner.CleanProducts | ecomscrape/cleaner.py:117-149 | No records give no products. Otherwise there is exactly one product per record, in order, each cleaned with the merged maps. The run succeeds exactly when every record does, and a failure is the `AttributeError` a record raises |
| CleanerExamples.PriceExample | tests/test_cleaner.py:15 | "£1,234.50" cleans to 1234.5 |
| CleanerExamples.RatingExample | tests/test_cleaner.py:16 | The classes `star-rating Three` with the words three and five rate 3 |
| CleanerExamples.AvailabilityExample | tests/test_cleaner.py:17 | "In stock " with the label "in stock" is `in_stock` |
| Api.FilterProducts | ecomscrape/api.py:24-43 | The loop returns the passing products in order. Every kept product has an effective price within each given bound, and a category equal to the requested one, ignoring case |
| Api.SelectIsOrderedFilter | ecomscrape/api.py:31-43 | The result is the products at increasing positions, and a product is kept exactly when it passes every filter |
| Api.NoFilterKeepsAll | ecomscrape/api.py:30-43 | Without bounds or a category every product is kept, in order |
| Api.FilterIdempotent | ecomscrape/api.py:30-43 | Filtering the filtered products again with the same query changes nothing |
| Config.ConfigFormat | ecomscrape/config.py:76-84 | A missing file is `ConfigNotFound`. The format is YAML exactly when the lowercase suffix is `.yaml` or `.yml`, and JSON exactly when it is `.json`. Any other suffix is `UnsupportedExtension` carrying the suffix as written |
| Config.ExtensionCaseIgnored | ecomscrape/config.py:80-84 | A file name with an accepted extension in any letter case has that format |
| Config.Require | ecomscrape/config.py:87-91 | A present value is returned unchanged; `None` is `MissingKey` naming the key |
| Config.ToFloat | ecomscrape/config.py:113-116 | `float()` succeeds exactly on numbers and booleans and keeps their value, always as a float; text is `ValueError`, anything else `TypeError` |
| Config.ToInt | ecomscrape/config.py:114-117 | `int()` keeps an integer exactly and truncates a float toward zero; the errors are those of `float()` |
| Config.ToList | ecomscrape/config.py:118 | `list()` gives a list's items, a text's characters or a mapping's keys, and `TypeError` for anything else |
| Config.RequestNumbers | ecomscrape/config.py:112-117 | The five numeric request settings load exactly when each is numeric or absent; absent ones are 10.0, 3, 0.5, 0.0 and 1 |
| Config.LoadRequest | ecomscrape/config.py:111-121 | Request settings load exactly when the section is a mapping with numeric settings and a listable retry list; the retry list defaults to 429, 500, 502, 503, 504, falsy user agents to the three defaults and falsy headers to an empty mapping |
| Config.LoadPagination | ecomscrape/config.py:123-133 | An absent or falsy section is no pagination. Otherwise, when it is acceptable, mode, selector and template are copied, `max_pages` defaults to 20, `start` to 1 and `end` to `start` |
| Config.LoadCleaning | ecomscrape/config.py:135-139 | The cleaning section loads exactly when it is a mapping or falsy, and fails with `AttributeError` otherwise. Each map is the configured one when truthy and the empty mapping otherwise |
| Config.FieldOf | ecomscrape/config.py:148-152 | A field keeps its selector; a missing attribute is `None`; `join_base_url` is false when absent and otherwise its truthiness |
| Config.LoadFields | ecomscrape/config.py:144-152 | Fields load exactly when every entry is a mapping with a `selector`. The first entry that is not gives `SelectorMissing` naming that field. The result has exactly the input's keys |
| Config.FieldKeysPreserved | ecomscrape/config.py:144-153 | With distinct input keys, the loaded fields are the input's bindings in order, so the key sequences are equal |
| Config.LoadParsing | ecomscrape/config.py:141-153 | Parsing loads exactly when the section, its container and its fields are present and the fields are acceptable; each missing one is its own `MissingKey` |
| Config.LoadConfig | ecomscrape/config.py:94-166 | A document loads exactly when it is acceptable. Missing `site_name` or `start_urls` is `MissingKey`. A `start_urls` that is not a non-empty list is `StartUrlsNotList`. Every configuration error is one of these or a parsing one. Once those keys pass, the first failing section loader, in the order request, pagination, cleaning, parsing, gives the document's error. A loaded configuration holds each section loader's result, a present site name, non-empty start URLs, and the base URL when it is truthy and `None` otherwise |
| ConfigExamples.MinimalConfigLoads | tests/test_config.py:8-29 | The unit test's minimal YAML document loads, with its site name, container and `name` field, and no pagination |
| ConfigExamples.MissingSiteNameRejected | tests/test_config.py:32-50 | The same document without `site_name` is a `ConfigError` for that key |
| ConfigExamples.MissingParsingRejected | ecomscrape/config.py:141 | A document with a site name and start URLs but no `parsing` section is a `ConfigError` naming `parsing` |
| Planning.Expand | ecomscrape/cli.py:71 | Expanding `[lo, hi]` gives `max(0, hi - lo + 1)` URLs, the k-th formatted with `lo + k` |
| Planning.GenerateFormatUrls | ecomscrape/cli.py:65-73 | A falsy template is `TemplateRequired`. A text template gives one URL per page from `start or 1` to `end or start`, in ascending order. A truthy template that is not a text gives the empty list when that range is empty, and `AttributeError` otherwise |
| Planning.NonTextTemplateEmptyRange | ecomscrape/cli.py:67-71 | With the template 7, start 5 and end 2 the list is empty; with start 2 and end 5 it is `AttributeError` |
| Planning.NextLink | ecomscrape/cli.py:96-103 | There is a next page exactly when the selector is truthy and finds a node with a non-empty `href`, and it is then the join of the current URL with that `href` |
| Planning.Walk | ecomscrape/cli.py:82-107 | The walk extends the pages seen, never repeats a URL, and stays within the budget. A dry run adds at most one page. It starts at the start URL, keeps only pages with HTML, and each kept page links to the next |
| Planning.WalkStopsForAReason | ecomscrape/cli.py:86-107 | The walk ends only for a reason the loop names: empty URL, budget spent, no HTML, dry run, no next link, or a link already seen |
| Planning.LinkPages | ecomscrape/cli.py:76-109 | The pages walked from one start URL have no duplicates and number at most `max_pages or 1`. The first is the start URL, a dry run keeps at most one, and every one has HTML |
| Planning.DiscoverLinkPagination | ecomscrape/cli.py:76-109 | The loop returns exactly the walk from the start URL, and the cache holds exactly the returned URLs, each with its page's HTML |
| Planning.BuildUrlPlan | ecomscrape/cli.py:112-132 | With no pagination or a falsy mode, the plan is the start URLs with an empty cache. `format` gives the template URLs, and `link` gives the walks of the start URLs concatenated in order with a cache that agrees with the site. Any other mode is `UnsupportedMode` |
| Planning.LinkUrlsAppend | ecomscrape/cli.py:124-130 | The link plan of two lists of start URLs is the plan of the first followed by that of the second |
| Planning.GatherPages | ecomscrape/cli.py:170-179 | At most one page per URL, and one in a dry run; every page has non-empty HTML, the cached copy or else the fetched one |
| Planning.GatheredPagesInOrder | ecomscrape/cli.py:170-179 | The pages are exactly the URLs with usable HTML, each paired with that HTML, in URL order. In a dry run only the first URL is considered |
| Planning.CacheIsTransparent | ecomscrape/cli.py:171-174 | A cache that agrees with the site changes none of the gathered pages |
| Planning.ConfigLimit | ecomscrape/cli.py:188-189 | A falsy configured maximum is no limit. `True` is the integer limit 1, a truthy integer is itself, a truthy float is a float limit, and a truthy text, list or mapping cannot be compared |
| Planning.ConfigLimitComparesAsPython | ecomscrape/cli.py:188 | The classified limit answers `max_products and len(raw_records) >= max_products` as Python does: false when falsy, booleans as 0 or 1, numbers by value, and `TypeError` for anything else |
| Planning.Take | ecomscrape/cli.py:189 | Slicing `[:k]` gives a prefix of length `min(k, n)` for `k >= 0` and `max(0, n + k)` otherwise |
| Planning.CollectRecordsAsWritten | ecomscrape/cli.py:181-193 | The loop as written keeps a prefix of the parsed records, no longer than a positive configured maximum |
| Planning.AsWrittenExceedsCliLimit | ecomscrape/cli.py:188-193 | With a configured maximum of 10, `--max-products 3` and a first page of 12 records, the loop as written keeps 10 records |
| Planning.CollectRecords | ecomscrape/cli.py:181-193 | The corrected loop keeps a prefix of the parsed records, no longer than either positive maximum; with positive maximums it is exactly the first `min(total, maximums)` records |
| Planning.TruncateKeepsCap | ecomscrape/cli.py:186-193 | From any collected prefix shorter than the cap, the corrected loop ends with exactly the first `cap` records of everything parsed |

## Left out

- `fetch.py` is not part of this model: HTTP sessions, retries, user-agent choice, sleeping and the thread pool. A page fetch is the `fetch` parameter of a `Planning.Site`.
- The concurrent `fetch_all` branch of `run` (cli.py:162-169) is left out. Its completion order is not deterministic, and only the sequential branch is modelled.
- `parser.py`, BeautifulSoup and CSS selection are not part of this model. "The first node the selector finds, and its `href`" is the `nextHref` parameter. Record parsing is the `parse` parameter of the truncation loop.
- `urljoin` and `str.format` are left out as function parameters. Their exceptions are not modelled, and neither is a selector that is not a text.
- Reading and decoding the YAML or JSON file are left out. `LoadConfig` starts from the decoded document, and `ConfigFormat` takes whether the file exists plus its name, without directories.
- The SHA-1 digest and its first 12 hex digits are left out. `IdBase` is the text that is hashed.
- `datetime.now`, the pandas data frame, the exporter, FastAPI, logging, `parse_args`, directory creation, raw-HTML saving and the export steps after truncation are left out.
- `Product` omits `scraped_at`, which is a clock reading.
- Cleaning maps stay a JSON value in `ScraperConfig`, as the source stores them. The cleaner takes them already as ordered maps.
- Cleaner.CleanRating: the configured rating map arrives as numbers, so `float(...)` of a configured rating (cleaner.py:76, 83) cannot fail. The conversion from the stored JSON value is not modelled, and neither is a non-numeric configured rating, which raises in Python.
- Documents with a repeated key in one mapping are not modelled. `OrderedMaps.Find` returns the first binding, while a decoded Python dict keeps the last value.
- Prices and ratings are exact decimals, without binary floating-point rounding. `Decimals.Show` renders numbers without exponent forms.
- Strings.Lower: lowercases ASCII letters only, because Python's full Unicode case mapping is not modelled.
- Scan.SearchIsRegexSearch: `\d` means the ASCII digits, not every Unicode decimal digit.
- Cleaner.AsText: Python's `repr` of list entries is modelled for entries without quotes, backslashes or non-printable characters, whose repr is the text in single quotes. Python escapes the latter (an NBSP becomes `\xa0`), and that is not modelled.
- Config.ToFloat: text is always `ValueError`, although Python's `float` parses numeric text such as "10". The model treats configured numbers as numbers.
- Config.ToInt: text is always `ValueError`, although Python's `int` parses integer text.
- Planning.BuildUrlPlan: start URLs are texts. A start-URL list holding other values is not modelled.
- Api.FilterProducts: prices are reals and categories are absent, `null` or text. Comparing a non-numeric price, and `str()` of other category values, are not modelled.

## Findings

| source | as written | input that shows it | evidently intended | confidence | as-written member | corrected member |
|---|---|---|---|---|---|---|
| ecomscrape/cli.py:188-193 | When the configured `max_products` is reached, the loop truncates and breaks before the command-line `--max-products` is checked | configured `max_products` 10, `--max-products 3`, a first page of 12 records: 10 records are kept | each maximum is enforced, so the first `min(total, maximums)` records are kept (3 here) | not executed | Planning.CollectRecordsAsWritten, Planning.AsWrittenExceedsCliLimit | Planning.CollectRecords, Planning.TruncateKeepsCap |
