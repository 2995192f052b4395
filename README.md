# Job-description lookup and generation helpers, modelled in Dafny

The application answers a request made of three free-text fields: a position
(ポジション), an industry (業界) and a department (部門). It looks up job
descriptions (職務内容) in a fixed corpus, or asks a language-model backend to
write new ones. This project models the deterministic core of that
application, `app.py`:

- **Keyword extraction and synonym normalisation** (`Normalizer`).
  `extract_keywords` strips a label and cuts twelve stop words out of it, in
  order. `normalize_industry` and `normalize_department` first try a synonym
  table on the stripped label, then fall back to extraction.
- **Position classification** (`Roles`). `infer_position_category` compares
  the lower-cased keywords of a position with a management list and a staff
  list, each in both directions. It returns 管理職 or スタッフ.
- **Corpus lookups** (`Corpus`). The corpus is a sequence of rows.
  - `search_database` is an AND search over the three columns. It returns at
    most ten descriptions.
  - `get_similar_samples` is an OR search over industry and department, with a
    random fallback.
  - `get_random_samples` draws from the whole corpus.
- **The deterministic half of `generate_job_descriptions`** (`Generation`).
  - The numbered reference list written into the prompt.
  - The parser that turns the backend's reply into at most ten descriptions.
- **The Python string operations these rely on** (`PyStr`): `strip`, `in`,
  `replace(w, '')`, `lower`, `startswith` and slicing, plus the whitespace run
  `\s*` that the numbering pattern skips (`LStrip`).

The models follow the source's own form. The three loops that rebuild a value
step by step are methods proved equal to a specification function: the stop
word loop (`ExtractKeywords`), the `+=` loop building the reference text
(`BuildReferenceText`) and the `job_list` loop of the parser (`CollectJobs`,
`ParseResponse`). Everything else is functions over values.

Three behaviours of the code are proved rather than assumed:

- **Keyword extraction is not idempotent.** `"業の界"` extracts to `"業界"`,
  which extracts to `""`. "業界" is removed before "の", so cutting "の" can
  create a fresh "業界" (`Normalizer.KeywordsNotIdempotent`).
- **A position of exactly one ASCII blank is classified as management.** A
  position of blanks only is non-empty but extracts to nothing, so it is
  compared as itself. A single `" "` occurs in "vice president", so it becomes
  管理職 (`Roles.BlankPositionIsManagement`). Every other blank position, such as
  `"  "`, `"\t"` or the ideographic blank `"　"`, matches no management keyword
  and falls to スタッフ (`Roles.OtherBlankPositionIsStaff`).
- **"マネージャー職" is not shortened.** The comment at app.py:88 gives
  "マネージャー" as its extraction, but 職 is no stop word, so extraction
  returns "マネージャー職" unchanged (`Roles.ManagerRoleKeepsSuffix`).

The staff list decides nothing: every non-empty position that matches no
management keyword becomes スタッフ, matched or not. `InferPositionCategory`
states exactly this.

## Model

| member | source | states |
|---|---|---|
| PyStr.Strip | app.py:117 | `strip()` returns a trimmed infix of the input, and everything cut from either end is whitespace (the full `str.isspace()` set) |
| PyStr.StripEmpty | app.py:117-121 | a label strips to nothing exactly when it is all whitespace |
| PyStr.LStrip | app.py:323 | the `\s*` after a numbering drops exactly the whitespace prefix: the rest is a suffix that does not start with whitespace, and everything dropped is whitespace |
| PyStr.RemoveAll | app.py:119 | `replace(w, '')` never lengthens the text and never adds a character; a one-character word is gone from the result |
| PyStr.Contains | app.py:96 | `needle in hay`: the needle is a prefix of `hay` or of one of its tails; the empty needle occurs everywhere |
| PyStr.ContainsInfix | app.py:96 | `in` finds a keyword whatever text stands around it |
| PyStr.ContainsAt | app.py:96-102 | `in` holds exactly when the needle sits at some index of the text, in both directions |
| PyStr.AbsentHead | app.py:96 | `needle in hay` is false when the needle's first character does not occur in `hay` |
| PyStr.StartsWith | app.py:316 | `startswith('#')`: the prefix test |
| PyStr.ToLower | app.py:90 | `lower()` keeps the length and lower-cases each character on its own |
| PyStr.Take | app.py:327 | `[:n]` / `head(n)` returns the prefix of length `min(n, len)` |
| Normalizer.RemoveWords | app.py:118-119 | removing the stop words in turn never lengthens the text and never adds a character; every one-character stop word is gone |
| Normalizer.RemoveWordsAppend | app.py:118-119 | removing a list of words in one pass equals removing its two halves one after the other |
| Normalizer.RemoveWordsAbsent | app.py:118-119 | words whose first character does not occur leave the text unchanged |
| Normalizer.Keywords | app.py:108-121 | `extract_keywords`: "" for "", otherwise a trimmed result no longer than the input and free of every one-character stop word |
| Normalizer.ExtractKeywords | app.py:108-121 | the stop-word loop computes exactly `Keywords(text)`, and the result never contains は |
| Normalizer.KeywordsNotIdempotent | app.py:114-121 | extraction is not idempotent: "業の界" gives "業界", which gives "" |
| Normalizer.NormalizeWith | app.py:123-147 | "" for ""; the table's canonical term for a stripped value that is a key with a non-empty term; otherwise the extracted keywords; trimmed whenever the table is canonical |
| Normalizer.IndustryTableCanonical | app.py:44-52 | every industry synonym maps to a non-empty, trimmed term |
| Normalizer.DepartmentTableValues | app.py:54-81 | every department synonym maps to one of the eleven canonical departments |
| Normalizer.DepartmentTableCanonical | app.py:54-81 | every department synonym maps to a non-empty, trimmed term |
| Normalizer.NormalizeIndustry | app.py:123-134 | `normalize_industry`: trimmed; "" for ""; the synonym's industry when the stripped value is a key; otherwise `extract_keywords(value)` |
| Normalizer.NormalizeDepartment | app.py:136-147 | `normalize_department`: the same, over the department table |
| Normalizer.PharmaceuticalsSynonym | app.py:46 | "製薬" normalises to "医薬品" |
| Normalizer.HumanResourcesSynonym | app.py:64 | "HR" normalises to "人事" |
| Normalizer.SynonymKeyIsStripped | app.py:129 | the value is stripped before lookup: " おもちゃ " normalises to "玩具" |
| Normalizer.KeywordsOfPharmaIndustry | app.py:114-121 | "製薬業界" extracts to "製薬" |
| Normalizer.SynonymNotAppliedAfterExtraction | app.py:129-134 | the synonym table is not applied to extracted keywords: "製薬業界" normalises to "製薬", not "医薬品" |
| Roles.SearchKey | app.py:89-90 | the compared key is never empty for a non-empty position |
| Roles.TwoWayMatch | app.py:94-96 | the two-way test: the lower-cased keyword occurs in the key, or the key occurs in the lower-cased keyword |
| Roles.AnyMatch | app.py:93-97 | the keyword loop succeeds exactly when some keyword matches in one of the two directions |
| Roles.InferPositionCategory | app.py:83-106 | "" exactly for ""; otherwise 管理職 or スタッフ; 管理職 exactly when some management keyword matches both-ways |
| Roles.AssistantManagerIsManagement | app.py:92-103 | management keywords are tried first: "アシスタントマネージャー" holds the staff keyword "アシスタント" and still is 管理職 |
| Roles.BlankPositionIsManagement | app.py:85-97 | a position of exactly one ASCII blank `" "` is 管理職 |
| Roles.BlankSearchKey | app.py:89-90 | a non-empty position of blanks only extracts to nothing and is compared as itself |
| Roles.BlankMissesPlainKeyword | app.py:94-96 | a blank key matches, in neither direction, a keyword holding no whitespace |
| Roles.BlankMissesLoneSpaces | app.py:94-96 | a blank key other than `" "` matches, in neither direction, a lower-case keyword whose blanks are lone ASCII spaces, such as "vice president" |
| Roles.BlankOccurrenceIsSpace | app.py:96 | the only blank key that occurs in a word with lone ASCII spaces is `" "` |
| Roles.OtherBlankPositionIsStaff | app.py:85-106 | every non-empty blank position other than `" "` (two blanks, a tab, the ideographic blank) is スタッフ |
| Roles.ManagerRoleKeepsSuffix | app.py:88-121 | extraction leaves "マネージャー職" unchanged, not shortened to "マネージャー": 職 is no stop word |
| Corpus.CellContains | app.py:219-225 | `str.contains(term, na=False, case=False)` on one cell: a missing cell never matches; otherwise lower-cased containment |
| Corpus.Filter | app.py:252-256 | a boolean mask keeps only rows of the table that pass it, keeps every row that passes, and is empty exactly when no row passes |
| Corpus.FilterAppend | app.py:252-256 | a mask distributes over concatenated tables |
| Corpus.FilterSnoc | app.py:252-256 | rows are kept in table order: one more row extends the selection by that row exactly when it passes |
| Corpus.Descriptions | app.py:259 | the 職務内容 column, row by row |
| Corpus.Sample | app.py:228 | `.sample(k)` returns `k` entries from distinct positions of the pool; all of them, reordered, when `k` is the pool size |
| Corpus.SearchPosition | app.py:244-245 | the searched position is the inferred category (管理職 or スタッフ) for every non-empty position; the raw text is never searched |
| Corpus.ExactMatch | app.py:252-256 | the AND of the three column tests |
| Corpus.ExactMatches | app.py:244-256 | the AND mask over the corpus, with the inferred position and the normalised industry and department |
| Corpus.ExactMatchesRows | app.py:252-256 | the selected rows are exactly the corpus rows that pass all three tests, in both directions |
| Corpus.SearchDatabase | app.py:239-261 | at most ten descriptions, the first ones in corpus order of the rows passing all three tests; empty exactly when no row passes |
| Corpus.SearchDatabaseRows | app.py:252-259 | every returned description belongs to a corpus row that passes all three tests |
| Corpus.SearchUsesCategoryOnly | app.py:244-256 | two non-empty positions with the same category give the same result |
| Corpus.SimilarMatchesSelect | app.py:216-225 | each of the three filter branches selects the rows matching the non-empty terms, ORed |
| Corpus.SimilarMatches | app.py:216-225 | the three filter branches, as written |
| Corpus.SimilarPool | app.py:213-228 | the filtered rows, or the whole corpus when both normalised terms are empty |
| Corpus.SimilarPoolRows | app.py:213-228 | the pool is the whole corpus without terms; otherwise exactly the corpus rows matching a non-empty term, in both directions |
| Corpus.GetSimilarSamples | app.py:208-232 | `min(count, pool)` descriptions from distinct pool rows; all of them when the pool is at most `count`; exactly the matches in corpus order when filtered matches are fewer than `count` |
| Corpus.GetRandomSamples | app.py:234-237 | `min(count, len(df))` descriptions from distinct rows; the whole column, reordered, when `count` covers it |
| Generation.DecimalString | app.py:271 | `f"{i}"` is a non-empty string of digits |
| Generation.DecimalRoundTrip | app.py:271 | the numeral written for an entry reads back as its number |
| Generation.Entry | app.py:271 | one entry `f"{i}. {sample}\n"` |
| Generation.NumberedFrom | app.py:270-271 | the entries of the samples, numbered consecutively |
| Generation.ReferenceText | app.py:267-271 | "" exactly when there are no samples; otherwise it begins with the heading |
| Generation.BuildReferenceText | app.py:267-271 | the `+=` loop builds the heading followed by the first `sample_count` samples numbered from 1 |
| Generation.SplitLines | app.py:316 | `split('\n')` gives at least one piece, and no piece holds a break |
| Generation.SplitJoin | app.py:316 | joining the pieces with breaks gives the reply back |
| Generation.ContentLines | app.py:316 | the comprehension keeps only stripped, non-blank, non-`#` lines, never more than there were; where each kept line comes from is stated by the next three rows |
| Generation.ContentLinesFrom | app.py:316 | every kept line is the strip of a line of the reply |
| Generation.ContentLinesKeep | app.py:316 | every line whose strip is non-blank and does not start with `#` is kept |
| Generation.ContentLinesAppend | app.py:316 | the comprehension keeps reply order: it distributes over concatenation |
| Generation.DigitRun | app.py:323 | `\d+` matches the longest run of leading digits |
| Generation.HasNumbering | app.py:323 | the line opens with `^\d+[.):]` |
| Generation.StripNumbering | app.py:323 | the substitution leaves a line without `^\d+[.):]` unchanged and strictly shortens one with it; the exact cut is `StripNumberingCut` |
| Generation.StripNumberingShape | app.py:323 | what the substitution leaves is a suffix of the line, trimmed when the line was |
| Generation.StripNumberingCut | app.py:323 | exactly the numbering is cut: the leading digits, one of `.`, `)`, `:`, and all the whitespace after it; what is left starts with a non-blank |
| Generation.NumberingRemovedOnce | app.py:323 | "N. text" becomes "text": exactly one numbering is removed |
| Generation.CleanLines | app.py:319-325 | the loop keeps only non-empty cleaned lines, never more than it read; where each comes from is stated by `CleanLinesFrom`, `CleanLinesKeep` and `CleanLinesAppend` |
| Generation.CleanLinesFrom | app.py:319-325 | every collected description is a content line with its numbering cut |
| Generation.CleanLinesKeep | app.py:319-325 | every content line that cleans to something non-empty is collected |
| Generation.CleanLinesAppend | app.py:319-325 | the loop keeps reply order: it distributes over concatenation |
| Generation.CollectJobs | app.py:319-325 | the `job_list` loop collects exactly the cleaned non-empty lines, in order |
| Generation.Parse | app.py:315-325 | split the reply, keep the content lines, cut their numbering, keep the non-empty ones |
| Generation.ParsedJobs | app.py:315-327 | exactly `min(10, n)` descriptions for a parse of `n`, the first ones of the parse; all of them when there are at most ten |
| Generation.ParseShape | app.py:315-325 | every parsed description is non-empty, trimmed and a single line |
| Generation.ParseResponse | app.py:315-327 | the parser returns at most ten non-empty, trimmed, single-line descriptions: the first ten cleaned content lines of the reply |
| Generation.ParseEntry | app.py:271-325 | one numbered reference entry at the front of a reply parses to its sample, followed by what the rest parses to |
| Generation.NumberedListParses | app.py:271-325 | numbered entries of well-formed samples parse back to exactly those samples |
| Generation.ReferenceListReadsBack | app.py:267-327 | a reference list in the prompt's own format, given back as a reply, parses to its first `min(sample_count, 10)` samples |

## Left out

- The Flask routes, `initialize` and the loading of the corpus file are not
  modelled. The corpus is a parameter of every lookup.
- `get_reference_samples` (app.py:204-206) is `get_similar_samples` with
  `count` 5. It is not modelled as a member of its own.
- The call to the language-model backend and the prompt text around the
  reference list are not modelled. The backend's reply is the parameter
  `content` of `ParseResponse`.
- Random draws are a parameter. `Sample` takes a sequence of numbers that
  stands for the generator, so the model does not reproduce the order pandas
  would choose. The contracts hold for every draw.
- CellContains: `str.contains(..., case=False)` is modelled as literal
  containment. pandas reads the term as a regular expression (`regex=True` by
  default), which the model does not follow. For example, pandas reads the
  parentheses in "製品開発(R&D)" as a group, not as literal characters. A term
  that is not a valid pattern, such as "IT(" or "*", makes pandas raise an
  error, so the whole request fails (app.py:173-177); the model returns a
  result instead.
- ToLower: `lower()` and `case=False` are modelled for ASCII letters only.
  Python also lower-cases other scripts, such as full-width Latin letters.
- DigitRun: `\d` is modelled as the ASCII digits. Python's `\d` also matches
  other Unicode decimal digits.
- Null values: a missing cell in a searched column never matches (`na=False`),
  and that is modelled. A missing 職務内容 (NaN) is not modelled;
  descriptions are strings.
- Inputs other than strings (`None`) and a negative `count` or
  `sample_count` are not modelled. The parameters are strings and natural
  numbers.
- Retries, concurrency and quality evaluation of generated text do not occur
  in `app.py` and are not modelled.
- The browser script (`static/`) is not part of this model.
