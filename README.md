# Dashboard collectors: a Dafny model

This project models the deterministic core of four collector scripts in a
market-dashboard repository.

- **Preliminary earnings** (`scripts/2_DART_Prelim_Earnings.py`). It reads the
  KIND listing of the day's disclosures page by page and keeps the preliminary
  earnings reports ("잠정"). It extracts receipt numbers and stock codes, picks
  the earnings table of each document by a keyword score, and normalises its
  rows into long records and a wide summary sorted by metric and scope. It
  also keeps a sent log of receipt numbers so that monitoring mode only sends
  new disclosures.
- **Global earnings** (`scripts/3_Global_Earnings.py`). It normalises tickers
  to the price service's form and keeps a day-long earnings cache with an
  `updated` stamp. It collects one row per ticker and sector, and names the
  per-sector sheets.
- **News to messenger** (`scripts/1_News_to_Telegram.py`). It cleans search
  results (entities, tags, white space) and names the press from the link. It
  drops repeated titles and applies the press filter, builds one message per
  keyword (capped at 4000 characters) and counts what was delivered. It also
  names the per-keyword sheets.
- **Earnings-call summariser** (`scripts/4_Earnings_Call_Summarizer.py`). It
  guesses the company and quarter from the first 500 characters of a
  transcript with three patterns tried in order. It shortens long summaries
  at the Q&A section, caps the message at 4096 characters, and picks the
  document style of each summary line.

Modules:

- `Strings`: white space, strip, case, digits, split and join.
- `Dedup`: keep the first item per key.
- `Clock`: timestamps and their two text formats.
- `StableSort`: stable insertion sort by a rank.
- `Prelim`: numeric cells, turnaround text, table scoring, normalisation, wide summary.
- `Listing`: the KIND listing crawl.
- `Dispatch`: the sent log and one run of the preliminary-earnings `main`.
- `GlobalEarnings`: tickers, the cache, the collection loop, sheet names.
- `News`: the news collector.
- `CallSummary`: the summariser.

State that the scripts change in place is modelled as classes:

- the sent log is `Dispatch.SentLog`;
- the cache dictionary is `GlobalEarnings.EarningsCache`;
- each row dictionary that gets a `sector` key written into it is `GlobalEarnings.EarningsRow`.

Loops that build results step by step are methods. Each is proved against a
specification function, and the properties are proved about that function.
Network replies, the clock, `html.unescape`, date parsing and table parsing
are parameters.

## Model

| member | source | states |
|---|---|---|
| Prelim.ParseDecimalDigits | scripts/2_DART_Prelim_Earnings.py:412-413 | `float` of a plain digit string is that whole number |
| Prelim.ParseDecimalNegativeDigits | scripts/2_DART_Prelim_Earnings.py:410-413 | `float` of '-' followed by digits is -n, n the number the digits denote |
| Prelim.CleanNumeric | scripts/2_DART_Prelim_Earnings.py:401-415 | a missing cell, "" and "-" give None; a numeric cell keeps its value |
| Prelim.CleanNumericDigits | scripts/2_DART_Prelim_Earnings.py:406-413 | digits with thousands commas and percent signs read as the number the digits spell |
| Prelim.CleanNumericParenthesised | scripts/2_DART_Prelim_Earnings.py:409-413 | an accounting-style amount such as "(1,234)", " (500) " or "(500)%" cleans to -n, n the number of its digits once surrounding white space, `,` and `%` are dropped |
| Prelim.CleanNumericPoint | scripts/2_DART_Prelim_Earnings.py:403-413 | any text that, stripped and without `,` and `%`, is a literal "int.frac" (e.g. "12.5%") cleans to the exact decimal it denotes |
| Prelim.CleanNumericParenthesisedPoint | scripts/2_DART_Prelim_Earnings.py:403-413 | a text that cleans to "(int.frac)" gives the negative of that decimal |
| Prelim.CleanNumericNat | scripts/2_DART_Prelim_Earnings.py:406-413 | every natural number written with any commas or percent signs reads back as itself |
| Prelim.TurnaroundOfText | scripts/2_DART_Prelim_Earnings.py:423-430 | profit wording wins over loss wording; empty or "-" gives "-"; any other text comes back stripped; the result is never empty |
| Prelim.StandardizeTurnaround | scripts/2_DART_Prelim_Earnings.py:418-430 | a missing cell gives "-"; a text or numeric cell is judged by its rendered text |
| Prelim.Score | scripts/2_DART_Prelim_Earnings.py:368-388 | a score is a multiple of 5 of at most 50, and is 0 exactly when no signal is present |
| Prelim.TableScore | scripts/2_DART_Prelim_Earnings.py:366-388 | a table's score is a multiple of 5 of at most 50 |
| Prelim.ScoreMonotone | scripts/2_DART_Prelim_Earnings.py:368-388 | more signals never lower the score, and a strictly larger signal set raises it |
| Prelim.BestIsUnique | scripts/2_DART_Prelim_Earnings.py:359-394 | at most one table is the best: the first with the strictly highest positive score |
| Prelim.ExtractEarningsTable | scripts/2_DART_Prelim_Earnings.py:355-394 | a table is returned exactly when some table scores above 0, and it is the best one |
| Prelim.BestTableMeaning | scripts/2_DART_Prelim_Earnings.py:355-394 | the index the selection loop ends on is valid exactly when some table scores, and it is then the best table |
| Prelim.FirstContained | scripts/2_DART_Prelim_Earnings.py:471-475 | the first metric name contained in the label, or None exactly when none is |
| Prelim.FindScope | scripts/2_DART_Prelim_Earnings.py:483-490 | "당해" in either column gives the current scope, else "누계" gives the cumulative scope, else no scope (all three directions) |
| Prelim.MakeRecord | scripts/2_DART_Prelim_Earnings.py:492-511 | the record carries the metric, the scope and the disclosure's company, code, receipt number and date; positions 2, 3, 4, 6, 7 are the cleaned current, previous, QoQ %, year-ago and YoY % values and positions 5, 8 the standardised QoQ and YoY turnarounds, None and "-" past the row's end; the units are "KRW_million" and "percent" |
| Prelim.NormalizeRow | scripts/2_DART_Prelim_Earnings.py:462-512 | a row yields a record exactly when it has at least 3 cells, a known metric and a scope; the record's metric and scope are those found |
| Prelim.MissingPositions | scripts/2_DART_Prelim_Earnings.py:502-508 | in a kept row, every number position at or past the row's end is None and every turnaround position there is "-"; a numeric cell present keeps its value |
| Prelim.NormalizeRows | scripts/2_DART_Prelim_Earnings.py:462-514 | at most one record per row, each with a known metric and scope and the disclosure's identity |
| Prelim.NormalizeRowsAppend | scripts/2_DART_Prelim_Earnings.py:462-512 | normalising rows is done row by row: it distributes over concatenation |
| Prelim.NormalizeRevenueRow | scripts/2_DART_Prelim_Earnings.py:468-512 | a "매출액 / 당해실적" row yields the current-scope revenue record |
| Prelim.NormalizeEarningsTable | scripts/2_DART_Prelim_Earnings.py:457-530 | no table or an empty table gives two empty frames; otherwise the long frame is the normalised rows and the wide frame is its summary |
| Prelim.ProjectAll | scripts/2_DART_Prelim_Earnings.py:518-521 | the wide frame selects the nine columns of every long record, in order |
| Prelim.OrderIndex | scripts/2_DART_Prelim_Earnings.py:524-525 | a name's position in the order list, or 99 when it is absent |
| Prelim.RankIsLexicographic | scripts/2_DART_Prelim_Earnings.py:524-526 | sorting by one rank orders by metric position, then by scope position |
| Prelim.WideSummaryMeaning | scripts/2_DART_Prelim_Earnings.py:516-528 | the wide summary is a sorted permutation of the projected records that keeps the input order among equal ranks |
| Prelim.FirstCurrent | scripts/2_DART_Prelim_Earnings.py:605-612 | the first current-scope record of a metric, or None exactly when there is none |
| Prelim.Headlines | scripts/2_DART_Prelim_Earnings.py:605-619 | the message lines come from current-scope records of the listed metrics, each line the first current record of its metric, and every metric that has one is reported |
| Prelim.HeadlinesOne | scripts/2_DART_Prelim_Earnings.py:607-612 | one metric yields its first current-scope record, or no line when it has none |
| Prelim.HeadlinesAppend | scripts/2_DART_Prelim_Earnings.py:607 | metrics are reported in list order: the lines for two lists are those of the first followed by those of the second |
| Prelim.HeadlineRowsExact | scripts/2_DART_Prelim_Earnings.py:602-619 | the message reports revenue, operating income and net income in that order, each exactly when a current-scope record of it exists |
| StableSort.SortBy | scripts/2_DART_Prelim_Earnings.py:526 | the result is sorted by rank and is a permutation of the input |
| StableSort.SortByStable | scripts/2_DART_Prelim_Earnings.py:526 | for every rank, the records of that rank keep their input order |
| Dedup.FirstByKeyKeepsFirst | scripts/1_News_to_Telegram.py:177 | every kept item is the first item of its key in the input |
| Dedup.FirstByKeyIsSubsequence | scripts/2_DART_Prelim_Earnings.py:213-215 | dropping repeats keeps the input order |
| Listing.DigitRun | scripts/2_DART_Prelim_Earnings.py:207 | the longest run of leading digits |
| Listing.CaptureAt | scripts/2_DART_Prelim_Earnings.py:207 | a capture is a nonempty digit string between the lead text and a quote |
| Listing.CaptureAtExactly | scripts/2_DART_Prelim_Earnings.py:207 | a match at a position captures d exactly when the text there is lead, d, quote |
| Listing.SearchCapture | scripts/2_DART_Prelim_Earnings.py:207 | a found capture is digits that occur after the lead text and before a quote |
| Listing.SearchCaptureFound | scripts/2_DART_Prelim_Earnings.py:207 | the search returns the leftmost match |
| Listing.SearchCaptureOf | scripts/2_DART_Prelim_Earnings.py:207 | a call text that starts with the lead, digits and a quote yields those digits |
| Listing.ZeroFill | scripts/2_DART_Prelim_Earnings.py:224 | `zfill` pads on the left with zeros to the width and keeps longer text |
| Listing.ZeroFillValue | scripts/2_DART_Prelim_Earnings.py:224 | zero-filling digits keeps the number they spell |
| Listing.ZeroFillIdempotent | scripts/2_DART_Prelim_Earnings.py:224 | zero-filling twice is zero-filling once |
| Listing.StockCode | scripts/2_DART_Prelim_Earnings.py:218-224 | the stock code is empty exactly when the company link has no leftmost capture; otherwise it is that capture zero-filled to six digits, with the same value |
| Listing.EntryOf | scripts/2_DART_Prelim_Earnings.py:189-240 | a row is kept exactly when it has 4 cells, a title link containing "잠정" and a receipt number; the entry's number and title are those |
| Listing.EntriesWellFormed | scripts/2_DART_Prelim_Earnings.py:189-240 | every entry of a page has a digit receipt number, the title word, a well-formed code and the search date |
| Listing.CrawlShape | scripts/2_DART_Prelim_Earnings.py:162-247 | a crawl reads at most 10 pages, none empty, every one but the last full |
| Listing.ListingOf | scripts/2_DART_Prelim_Earnings.py:161-255 | the listing has distinct receipt numbers and only well-formed entries |
| Listing.ListingKeepsFirst | scripts/2_DART_Prelim_Earnings.py:166-251 | when every page was read, each listed entry is the first one seen with its receipt number across all the pages, in page order |
| Listing.ListingCoversPages | scripts/2_DART_Prelim_Earnings.py:213-215 | every receipt number found on a page appears in the listing |
| Listing.AddPage | scripts/2_DART_Prelim_Earnings.py:189-240 | adding a page's rows extends the first-per-number listing by that page |
| Listing.SearchListing | scripts/2_DART_Prelim_Earnings.py:161-255 | the crawl loop returns the listing function's result, and nothing when a request fails |
| Listing.CrawlEnds | scripts/2_DART_Prelim_Earnings.py:186-244 | an empty page, a short page or the page cap ends the crawl with the pages read so far |
| Listing.CrawlGoesOn | scripts/2_DART_Prelim_Earnings.py:243-247 | a full page within the cap is kept and the next page is read |
| Clock.Date8 | scripts/2_DART_Prelim_Earnings.py:132 | the date stamp is eight digits whose value is year·10000 + month·100 + day |
| Clock.FormatThenParse | scripts/3_Global_Earnings.py:159-170 | parsing a formatted "%Y-%m-%d %H:%M:%S" stamp gives back the same time |
| Dispatch.SentLog.constructor | scripts/2_DART_Prelim_Earnings.py:100-109 | the log holds the stored set, or nothing when the file is missing or unreadable |
| Dispatch.SentLog.Add | scripts/2_DART_Prelim_Earnings.py:122-126 | adding a receipt number adds exactly that number |
| Dispatch.SentLog.ClearOld | scripts/2_DART_Prelim_Earnings.py:129-135 | only numbers starting with today's date stay |
| Dispatch.TodaysIds | scripts/2_DART_Prelim_Earnings.py:134 | the kept set is exactly the numbers that start with the date |
| Dispatch.PurgeKeepsToday | scripts/2_DART_Prelim_Earnings.py:122-135 | a just-sent number survives the purge exactly when it carries today's date |
| Dispatch.PurgeIdempotent | scripts/2_DART_Prelim_Earnings.py:129-135 | purging twice is purging once |
| Dispatch.FilterNew | scripts/2_DART_Prelim_Earnings.py:703-709 | the new disclosures are exactly those whose number is not in the log |
| Dispatch.FilterNewIsSubsequence | scripts/2_DART_Prelim_Earnings.py:704 | filtering keeps the listing order |
| Dispatch.FilterNewOfNothing | scripts/2_DART_Prelim_Earnings.py:691-709 | with an empty log nothing is filtered out |
| Dispatch.MessageOfMeaning | scripts/2_DART_Prelim_Earnings.py:719-756 | a disclosure yields a message exactly when its document was read, some table scored and the best table normalises to at least one record; the message carries the receipt number and those records |
| Dispatch.MessagesOfAppend | scripts/2_DART_Prelim_Earnings.py:718-758 | the messages of two runs of disclosures are those of the first followed by those of the second |
| Dispatch.MessagesOfMembers | scripts/2_DART_Prelim_Earnings.py:718-758 | a message is sent for the loop exactly when some disclosure of the listing yields it |
| Dispatch.MessagesSkipSent | scripts/2_DART_Prelim_Earnings.py:703-709 | after the log filter no message carries an already-logged receipt number |
| Dispatch.Process | scripts/2_DART_Prelim_Earnings.py:719-756 | the message made for one disclosure is the one its document determines: none for a missing document, no scoring table or no record, else the best table's normalised records |
| Dispatch.Collect | scripts/2_DART_Prelim_Earnings.py:718-758 | the outbox is exactly the messages the disclosures determine, in listing order |
| Dispatch.DeliveredIds | scripts/2_DART_Prelim_Earnings.py:771-775 | the logged numbers are exactly those of delivered messages |
| Dispatch.DeliveredCount | scripts/2_DART_Prelim_Earnings.py:768-775 | the sent count never exceeds the number of messages |
| Dispatch.AllDelivered | scripts/2_DART_Prelim_Earnings.py:768-775 | when every message is delivered, the count is the number of messages |
| Dispatch.NoneDelivered | scripts/2_DART_Prelim_Earnings.py:768-775 | when nothing is delivered, the count is 0 and nothing is logged |
| Dispatch.SendAll | scripts/2_DART_Prelim_Earnings.py:768-781 | the log gains exactly the delivered numbers and the count is the number delivered |
| Dispatch.RunOnce | scripts/2_DART_Prelim_Earnings.py:685-781 | the outbox is the messages of the listing, or of its not-yet-logged part in monitoring mode, where no logged number is sent again; sending logs exactly the delivered numbers; without sending the log is unchanged and the count is 0 |
| GlobalEarnings.Suffix | scripts/3_Global_Earnings.py:123-135 | the exchange suffix is empty or a dot-led upper-case code |
| GlobalEarnings.CanonicalTrimmed | scripts/3_Global_Earnings.py:110 | the stripped, upper-cased ticker has no white space at either end |
| GlobalEarnings.NormalizeDotted | scripts/3_Global_Earnings.py:110-114 | any ticker with a dot after trimming and upper-casing is returned trimmed and upper-cased, and one already in that form is returned unchanged |
| GlobalEarnings.NormalizePlain | scripts/3_Global_Earnings.py:110-138 | a ticker without an inner space (and so without an exchange code) is returned trimmed and upper-cased; an unpadded upper-case one without a dot is unchanged |
| GlobalEarnings.NormalizePair | scripts/3_Global_Earnings.py:116-136 | "SYMBOL EXCHANGE" becomes the symbol with the exchange's suffix |
| GlobalEarnings.SymbolShape | scripts/3_Global_Earnings.py:117-119 | the symbol part has no spaces or dots and is upper case |
| GlobalEarnings.NormalizeShape | scripts/3_Global_Earnings.py:110-138 | a normalised ticker has a dot or has neither spaces nor dots |
| GlobalEarnings.NormalizeIdempotent | scripts/3_Global_Earnings.py:100-138 | normalising twice is normalising once |
| GlobalEarnings.SavedStampValidity | scripts/3_Global_Earnings.py:164-173 | a cache saved at a time is valid exactly while less than 24 hours have passed |
| GlobalEarnings.UnreadableStampInvalid | scripts/3_Global_Earnings.py:164-173 | a missing or unparsable stamp makes the cache invalid |
| GlobalEarnings.Lookup | scripts/3_Global_Earnings.py:180 | a row is found exactly when the data holds the ticker |
| GlobalEarnings.EarningsCache.constructor | scripts/3_Global_Earnings.py:309 | the cache holds the loaded data and stamp |
| GlobalEarnings.EarningsCache.Get | scripts/3_Global_Earnings.py:176-180 | an invalid cache answers nothing; a valid one answers the stored row |
| GlobalEarnings.EarningsCache.Set | scripts/3_Global_Earnings.py:183-187 | the ticker maps to the new row, every other ticker is unchanged, the stamp is kept |
| GlobalEarnings.EarningsCache.Save | scripts/3_Global_Earnings.py:156-161 | saving keeps the data and stamps the current time |
| GlobalEarnings.LastOf | scripts/3_Global_Earnings.py:335 | the last occurrence of a ticker at or after a position |
| GlobalEarnings.HeldBefore | scripts/3_Global_Earnings.py:323-331 | with a valid cache, a ticker is cached exactly when it was loaded or already visited |
| GlobalEarnings.FetchStep | scripts/3_Global_Earnings.py:323-331 | one more occurrence is fetched exactly when it misses, and its fetched dict holds the ticker's report |
| GlobalEarnings.CommonStep | scripts/3_Global_Earnings.py:326-331 | after one more visit, unseen tickers keep their loaded entries and each seen ticker holds its last occurrence's dict |
| GlobalEarnings.SharedStep | scripts/3_Global_Earnings.py:323-331 | under a valid cache one more visit replaces no loaded entry, stores no dict twice, and keeps every occurrence on its ticker's cached dict |
| GlobalEarnings.CacheStep | scripts/3_Global_Earnings.py:323-336 | one visit, hit or fetch, keeps every cache law: fetch exactly on a miss, unseen tickers as loaded, each seen ticker holding its last occurrence's dict, and under a valid cache loaded entries never replaced |
| GlobalEarnings.Visit | scripts/3_Global_Earnings.py:319-336 | one ticker's row is the cached dict on a hit or a fresh fetched dict stored under the ticker on a miss; the cache laws and the sectors shown carry over to the longer trace |
| GlobalEarnings.CollectGroup | scripts/3_Global_Earnings.py:318-340 | one sector's tickers are visited in order and appended, and the cache afterwards satisfies the cache laws for the longer trace |
| GlobalEarnings.CollectGroups | scripts/3_Global_Earnings.py:315-340 | all groups are visited in order, one row per occurrence, and the final cache satisfies the cache laws for the whole trace |
| GlobalEarnings.CollectAllEarnings | scripts/3_Global_Earnings.py:298-346 | one row per occurrence; a row is fetched exactly when it was not a cache hit; the saved cache holds, for every visited ticker, the dict of its last occurrence and, for every other ticker, what was loaded (nothing without the cache); with a valid cache a loaded ticker's rows are the loaded dict itself and rows of the same ticker are one shared dict showing its last sector; the cache is stamped with now |
| GlobalEarnings.SectorSheetName | scripts/3_Global_Earnings.py:386 | at most 31 characters of the sector, with '/' and '\\' replaced by '_' |
| GlobalEarnings.SectorSheetNameStable | scripts/3_Global_Earnings.py:386 | a sheet name is its own sheet name |
| News.RemoveTags | scripts/1_News_to_Telegram.py:111 | removing tags leaves no complete tag and adds no characters |
| News.RemoveTagsOpen | scripts/1_News_to_Telegram.py:111 | text holding no tag comes back unchanged |
| News.RemoveTagsIdempotent | scripts/1_News_to_Telegram.py:111 | removing tags twice is removing them once |
| News.RemoveTagsKeepsPlain | scripts/1_News_to_Telegram.py:111 | text before the first '<' is kept as it stands, and the rest is cleaned on its own |
| News.RemoveTagsDropsTag | scripts/1_News_to_Telegram.py:111 | a tag `<u>`, with `u` nonempty and free of '>', is dropped whole, and the text after it is cleaned on its own |
| News.RemoveTagsBold | scripts/1_News_to_Telegram.py:111 | a title "<b>x</b>y" whose words hold no '<' becomes "xy" |
| News.RemoveTagsExample | scripts/1_News_to_Telegram.py:111 | "<b>삼성</b>전자" becomes "삼성전자" |
| News.NoTagSpanOfBracketsOpen | scripts/1_News_to_Telegram.py:111 | text whose every '<' is followed by '>' or by no '>' at all holds no tag |
| News.CollapseSpace | scripts/1_News_to_Telegram.py:114 | every white-space run becomes one space, other characters kept |
| News.CollapseSpaceAppend | scripts/1_News_to_Telegram.py:114 | a lone space character becomes one space and any other is kept; two texts that do not meet in white space collapse separately |
| News.CollapseSpaceBracketsOpen | scripts/1_News_to_Telegram.py:111-114 | collapsing space cannot create a tag |
| News.CleanHtmlTagsClean | scripts/1_News_to_Telegram.py:104-116 | the cleaned text is trimmed, single-spaced and holds no tag |
| News.PressFromFirst | scripts/1_News_to_Telegram.py:131-157 | the press of the first listed domain the link contains, or "기타" when none |
| News.WordsAndSpaces | scripts/1_News_to_Telegram.py:174 | the key keeps only word characters and white space from the title |
| News.WordsAndSpacesFilters | scripts/1_News_to_Telegram.py:174 | a character is kept exactly when it is a word character or white space, and a concatenation is filtered piece by piece |
| News.WordCharExamples | scripts/1_News_to_Telegram.py:174 | symbols, arrows, dashes and ellipses are not word characters; Hangul, accented Latin, fullwidth digits and '_' are |
| News.TitleKeyIgnoresCase | scripts/1_News_to_Telegram.py:174 | titles differing in letter case have the same key |
| News.TitleKeyIgnoresPunctuation | scripts/1_News_to_Telegram.py:174 | a punctuation character does not change the key |
| News.WordsAndSpacesSkips | scripts/1_News_to_Telegram.py:174 | a non-word, non-space character is dropped wherever it stands |
| News.RemoveDuplicatesMeaning | scripts/1_News_to_Telegram.py:160-182 | order kept, one item per key, each the first of its key, every key present, empty stays empty |
| News.Display | scripts/1_News_to_Telegram.py:229 | the request size is the smaller of the asked count and 100 |
| News.ItemOf | scripts/1_News_to_Telegram.py:246-275 | an item carries its search keyword and the press named by its link |
| News.KeywordNewsFiltered | scripts/1_News_to_Telegram.py:246-275 | every item of a keyword passes the press filter |
| News.GatheredFiltered | scripts/1_News_to_Telegram.py:224-281 | every gathered item belongs to a searched keyword and passes the filter |
| News.KeywordRows | scripts/1_News_to_Telegram.py:246-275 | the per-keyword loop yields the filtered items in reply order |
| News.SearchNews | scripts/1_News_to_Telegram.py:207-294 | without credentials nothing; otherwise the gathered items with repeated titles removed |
| News.SearchNewsFiltered | scripts/1_News_to_Telegram.py:264-289 | the search result respects the keywords and the press filter |
| News.OfKeywords | scripts/1_News_to_Telegram.py:460-461 | the kept items are exactly those whose keyword is wanted |
| News.OfKeywordsFilters | scripts/1_News_to_Telegram.py:460-461 | an item is kept exactly when its keyword is wanted, and a concatenation is selected piece by piece, so the order is kept |
| News.Group | scripts/1_News_to_Telegram.py:465 | a keyword's group is exactly the items with that keyword |
| News.GroupFilters | scripts/1_News_to_Telegram.py:465 | an item joins the group exactly when it has the keyword, and a concatenation is grouped piece by piece, so the order is kept |
| News.Head | scripts/1_News_to_Telegram.py:465 | `head(n)` is a prefix of length n, or all but the last -n rows when n is negative |
| News.Fit | scripts/1_News_to_Telegram.py:478-480 | a message over 4000 characters is cut to 4000 and marked; a shorter one is unchanged |
| News.MessagesAt | scripts/1_News_to_Telegram.py:464-480 | the k-th message is the fitted message of the k-th keyword batch |
| News.SendBatches | scripts/1_News_to_Telegram.py:464-486 | the send loop produces every batch's message and counts the rows of delivered batches |
| News.SendNews | scripts/1_News_to_Telegram.py:453-486 | no news sends nothing; otherwise the batches of the selected keywords are sent |
| News.BatchesShape | scripts/1_News_to_Telegram.py:460-465 | one batch per distinct keyword, at most max_news rows each, rows of that keyword, keywords among those asked |
| News.BatchesCover | scripts/1_News_to_Telegram.py:464 | every selected item's keyword has a batch |
| News.SentTotalBound | scripts/1_News_to_Telegram.py:482-483 | the count is at most the number of batches times the batch limit |
| News.SentCountBound | scripts/1_News_to_Telegram.py:482-486 | the sent count is at most keywords times max_news |
| News.DropForbidden | scripts/1_News_to_Telegram.py:372 | the result holds no sheet-forbidden character and nothing new |
| News.DropForbiddenFilters | scripts/1_News_to_Telegram.py:372 | a character is kept exactly when it is allowed in a sheet name, and a concatenation is cleaned piece by piece |
| News.KeywordSheetName | scripts/1_News_to_Telegram.py:372 | the first min(31, n) characters of the cleaned keyword, n its length, none of them forbidden |
| News.KeywordSheetNameStable | scripts/1_News_to_Telegram.py:372 | a sheet name is its own sheet name |
| CallSummary.RunEnd | scripts/4_Earnings_Call_Summarizer.py:168-170 | the name group is a maximal run of Hangul syllables and Latin letters |
| CallSummary.ResultsEnd | scripts/4_Earnings_Call_Summarizer.py:171 | the greedy name run backs off to the longest prefix followed by "실적" |
| CallSummary.MatchAt | scripts/4_Earnings_Call_Summarizer.py:168-171 | a match's company is a nonempty name run, and a quarter group is present exactly for the first two patterns (what each captures is stated by the Exactly and Shape lemmas below) |
| CallSummary.MatchQuarterCodeExactly | scripts/4_Earnings_Call_Summarizer.py:168-169 | a name run, white space and a `\d{1,2}Q\d{2}` code match the first pattern with exactly that name and code as groups, whatever follows |
| CallSummary.MatchQuarterCodeShape | scripts/4_Earnings_Call_Summarizer.py:168-169 | conversely a match of the first pattern is its company, white space and its quarter code, read from the text in that order |
| CallSummary.ExtractExample | scripts/4_Earnings_Call_Summarizer.py:161-180 | "넷마블 4Q25 실적 발표" gives the company "넷마블" and the quarter "4Q25" |
| CallSummary.MatchYearQuarterExactly | scripts/4_Earnings_Call_Summarizer.py:170 | a name run, white space and a `\d{4}년?\s*\d분기` text match the second pattern with exactly that name and text as groups, whatever follows |
| CallSummary.MatchYearQuarterShape | scripts/4_Earnings_Call_Summarizer.py:170 | conversely a match of the second pattern is its company, white space and a year-and-quarter text, read from the text in that order |
| CallSummary.NoQuarterCodeWithoutQ | scripts/4_Earnings_Call_Summarizer.py:169 | a text without 'Q' has no match of the first pattern anywhere |
| CallSummary.ExtractYearExample | scripts/4_Earnings_Call_Summarizer.py:161-180 | "넷마블 2025년 4분기" gives the company "넷마블" and the quarter "2025년 4분기" |
| CallSummary.Search | scripts/4_Earnings_Call_Summarizer.py:175 | `re.search` finds the leftmost match, or none at any position |
| CallSummary.Window | scripts/4_Earnings_Call_Summarizer.py:175 | the search looks at the first 500 characters: all of a shorter transcript, exactly 500 of a longer one |
| CallSummary.ExtractInOrder | scripts/4_Earnings_Call_Summarizer.py:174-180 | the quarter-code pattern wins, then year-quarter, then results, then the defaults |
| CallSummary.ExtractDefault | scripts/4_Earnings_Call_Summarizer.py:163-182 | with no match the defaults "회사명" and "분기" come back |
| CallSummary.ExtractCompanyShape | scripts/4_Earnings_Call_Summarizer.py:166-182 | the company is the default or a nonempty name run |
| CallSummary.MatchQuarterShaped | scripts/4_Earnings_Call_Summarizer.py:168-170 | a captured quarter is nonempty and starts with a digit |
| CallSummary.QuarterFoundIff | scripts/4_Earnings_Call_Summarizer.py:174-182 | the quarter differs from the default exactly when a quarter pattern matches in the window |
| CallSummary.QuarterCodeWins | scripts/4_Earnings_Call_Summarizer.py:174-180 | any quarter-code match means the leftmost one gives company and quarter |
| CallSummary.FirstQa | scripts/4_Earnings_Call_Summarizer.py:318-322 | the first line starting "Q&A", or the line count when there is none |
| CallSummary.ShortenSummary | scripts/4_Earnings_Call_Summarizer.py:314-325 | the shortening loop computes the shortened summary |
| CallSummary.ShortenedWithoutQa | scripts/4_Earnings_Call_Summarizer.py:316-325 | a summary with no Q&A line is sent whole |
| CallSummary.ShortenedAtQa | scripts/4_Earnings_Call_Summarizer.py:314-325 | a long summary is cut after its first Q&A line and gets the file note; the kept part is a prefix of the summary |
| CallSummary.Cap | scripts/4_Earnings_Call_Summarizer.py:335 | the first 4096 characters |
| CallSummary.TelegramText | scripts/4_Earnings_Call_Summarizer.py:311-335 | the message is the header and shortened summary, capped |
| CallSummary.TelegramTextShape | scripts/4_Earnings_Call_Summarizer.py:311-335 | the message fits 4096 characters, starts with the header, and is whole when short enough |
| CallSummary.Classify | scripts/4_Earnings_Call_Summarizer.py:260-273 | "< " gives a 12-point heading, "# " an 11-point heading, "* " or "Q" bold text; a line is styled exactly when it has one of these marks |
| CallSummary.ClassifyByLead | scripts/4_Earnings_Call_Summarizer.py:261-270 | the style depends only on the first two characters |
| CallSummary.DocxParagraphs | scripts/4_Earnings_Call_Summarizer.py:260-273 | one paragraph per summary line |
| CallSummary.ParagraphsKeepText | scripts/4_Earnings_Call_Summarizer.py:260-273 | the paragraphs joined by newlines give back the summary |
| Strings.JoinSplit | scripts/4_Earnings_Call_Summarizer.py:316-325 | splitting on newlines and joining again gives back the text |

## Left out

- Network access is left out. The KIND listing requests, document downloads,
  the news search service, the price/earnings service and message delivery
  are parameters, and their failures are `None`/`Failed` values or
  `delivered` answers.
- `pd.read_html` and BeautifulSoup parsing are left out. A document is given
  as its parsed tables, and a listing page as its parsed rows with link texts
  and `onclick` attributes.
- Prelim.TableScore: `df.to_string()` is approximated by the column names
  and cell texts; the index labels it also prints are not modelled.
- Prelim.CleanNumeric: `float` is modelled on exact decimals: sign, digits,
  optional point, surrounding white space. Exponents, `inf`, `nan` and
  underscores are not modelled, and neither is binary rounding.
- Prelim.Headlines: the message text (`:,.0f` and `:+.1f` formatting and the
  URL line) is not modelled. Only the records the message lines show are.
- Pattern classes: `\d` is ASCII digits, and `str.upper`/`lower` are ASCII
  only.
- News.IsWordChar: `\w` is modelled as ASCII letters and digits, '_', and
  the letters and digits of these blocks: Latin-1 and Latin Extended-A/B,
  basic Greek and Cyrillic, Hangul jamo and syllables, kana, CJK ideographs
  (with extension A) and the fullwidth forms. Every other character counts
  as punctuation. Python's `\w` also matches the letters and numerals of
  other scripts (Arabic, Devanagari, Thai, extended Greek and Cyrillic,
  circled digits such as '①', Roman numerals), which the model's title key
  drops.
- Clock.ParseStamp: only the zero-padded 19-character form that
  `strftime('%Y-%m-%d %H:%M:%S')` writes, with a four-digit year from 1000,
  is read. `strptime` also accepts fields without their leading zeros
  ("2025-1-5 3:04:05"), any run of white space where the format has its one
  space ("2025-01-05   03:04:05"), and years before 1000 written with four
  digits ("0999"); the model treats those stamps as
  unreadable, so a cache file edited by hand into that form counts as
  expired.
- The clock is read once per run and passed as `now`. The two reads in the
  scripts, `strftime` and the age check, are taken to give the same time.
- The sent log is not re-read from disk before each addition. The model
  keeps it in memory, which is the same unless another process writes the
  file.
- Listing.SearchListing: any failed request gives an empty listing, as the
  `except` at lines 253-255 does.
- GlobalEarnings.CollectAllEarnings: a cached dictionary is taken as truthy.
  An empty cached dictionary would be refetched by the script.
- GlobalEarnings.CollectAllEarnings requires distinct row objects in the
  loaded cache (`DistinctEntries`). A cache read by `json.load` never shares
  dictionaries.
- GlobalEarnings.CollectGroups: the ticker normaliser is a parameter of the
  loop methods. `CollectAllEarnings` passes `NormalizeTicker`.
- GlobalEarnings: the collection of the price/earnings data itself
  (`get_earnings_data`) is not modelled, and neither is the column selection
  of the frame.
- News: `html.unescape` and the RFC 2822 `pubDate` parser are parameters.
  `extract_press_name` ignores its `title` argument, and so does
  `News.PressName`.
- News: the Excel file writing is not modelled. Only the sheet names are.
- CallSummary.ExtractInOrder: `ExtractCompanyAndQuarter` has no `ensures`
  of its own. Its meaning is stated in the lemmas beside it.
- CallSummary.TelegramText: the missing-credentials check and the retry
  without Markdown are not modelled. Only the text sent is.
- CallSummary: the LLM summarisation call, the `.txt`/`.docx` file writing
  and fonts are not modelled. Only the style of each line is.
- The remaining scripts (overnight summary, social tracker, web crawling),
  the dashboard app, shared utilities and the monitor loop that reruns
  `main` are not part of this model.
