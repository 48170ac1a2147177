# SeqTrim in Dafny

SeqTrim is a small Python library for cleaning FASTQ reads. It has two
near-duplicate modules, `SeqTrim.py` and `PhredTools.py`. Each one holds:

- a `Convert` class with the two quality-encoding tables. `Phred33` maps a
  Phred score 0..93 to its Sanger character, whose code is score + 33.
  `Phred64` maps an old Illumina character '@'..'~' to its score, which is
  code − 64. With these the class re-encodes a quality line (`Convert`) and
  looks up the character of a score (`PhredToASCII`);
- a read trimmer (`Trim` in SeqTrim.py, `EndTrim` in PhredTools.py). It holds
  a sequence, a quality line and a threshold character made from a minimum
  score. It trims the read from the 5' end (`FivePrime`), from the 3' end
  (`ThreePrime`), at the first failing base (`GlobalTrim`), discards short
  reads (`MinLength`) and hands the read back (`Retrieve`).

A base passes when its quality character is at least the threshold
character.

The Dafny project has these modules:

- `Outcomes` (outcomes.dfy): `Option`, `Result` and `Outcome`. Where the
  source ends the process, the model returns an error value instead.
- `Slices` (slices.dfy): Python slicing of strings, with clamped and
  negative bounds, and reversal. The source slices both strings of a read with
  bounds computed from the quality line alone, and the two lengths are never
  forced equal, so the model follows Python's slicing rules exactly.
- `Phred` (phred.dfy): the two tables, as arithmetic on character codes.
  Two lemmas list every entry the source writes out.
- `QualityTrim` (quality_trim.dfy): the trimming logic both trimmers share,
  on plain values. A `Read` is a sequence and a quality line. The functions
  `FivePrime`, `ThreePrime` and `ClipAtFirstFailure` are the reference
  definitions. The loops of the source are methods proved to compute them.
  Lemmas state what each trim keeps.
- `SeqTrim` (seqtrim.dfy): SeqTrim.py's `Convert`, `PhredToASCII` and the
  class `Trim`.
- `PhredTools` (phredtools.dfy): PhredTools.py's `Convert` and
  `PhredToASCII`, which return a message string on bad input, and the class
  `EndTrim`.
- `Scenarios` (scenarios.dfy): worked cases on small reads.

The trimmer classes keep the source's state as fields. `sequence` and
`quality` are `Option<string>`, because `MinLength` and `Retrieve` can make
them absent. Each trimming method replaces both fields, and its contract ties
the new read to the reference function applied to the old read.

Points where the code does something other than its docstrings suggest, or
where the two modules differ; the model follows the code as written:

- SeqTrim.py refuses a crawl longer than the quality line. PhredTools.py
  accepts any crawl of at least 0.
- When no base passes, the crawl-0 trims keep one base: the last base for the
  5' trim, the first base for the 3' trim. The read is not discarded.
- The 3' crawl never looks at the base just before the last passing base.
- SeqTrim.py's `GlobalTrim` clips when `Count >= Count/PercentBases*100`.
  The repository is Python 2 (PhredTools.py uses `print` statements);
  SeqTrim.py itself does not say, so the model takes `/` to be floor division
  on integers, as in Python 2. With the default
  `PercentBases = 1` this test holds only when no base fails, so the default
  global trim never changes a read. With `PercentBases >= 100` it always
  clips. `PercentBases = 0` fails in the division.

## Model

| member | source | states |
|---|---|---|
| Phred.Phred33 | SeqTrim.py:13-107 | the score-to-Sanger table: a score 0..93 maps to a character in '!'..'~' that decodes back to the score |
| Phred.Phred64 | SeqTrim.py:111-175 | the Illumina-to-score table: a character '@'..'~' maps to a score in 0..62, and the score plus 64 is the character again |
| Phred.ToSanger | SeqTrim.py:177-186 | converting one Illumina character gives the Sanger character of the same score, with code 31 lower, in '!'..'_' |
| Phred.Phred33Entries | SeqTrim.py:13-107 | the score-to-Sanger table has exactly the listed entries 0:'!' .. 93:'~' |
| Phred.Phred64Entries | SeqTrim.py:111-175 | the Illumina-to-score table has exactly the listed entries '@':0 .. '~':62 |
| Phred.Phred64ScoresAreKeys | SeqTrim.py:181-182 | every score from the Phred+64 table is a key of the Phred+33 table, so the second lookup never fails |
| Phred.Phred33RoundTrip | SeqTrim.py:13-107 | decoding a Sanger character gives back its score, and comparing characters compares scores |
| QualityTrim.PassesIffScoreAtLeast | SeqTrim.py:233 | with a threshold made from a score, a base passes exactly when its score is at least that score |
| QualityTrim.First | SeqTrim.py:243-246 | the lowest passing (or failing) index in a range, and none exactly when no base there matches |
| QualityTrim.Last | SeqTrim.py:283-287 | the highest passing (or failing) index in a range, and none exactly when no base there matches |
| QualityTrim.FailCount | SeqTrim.py:316-321 | the number of failing bases is 0 exactly when all pass, and the length exactly when all fail |
| QualityTrim.LastInReverse | SeqTrim.py:292-294 | searching the reversed quality line from the back is searching the line from the front |
| QualityTrim.LastInSlice | SeqTrim.py:251 | searching the window `q[start:start+crawl]` is searching `q` between those bounds |
| QualityTrim.Crawl | SeqTrim.py:249-256 | the crawl loop returns one past the last failing base of the window, or its starting value when none fails |
| QualityTrim.FivePrimeCut | SeqTrim.py:231-256 | where the 5' trim starts the kept slice: at most the length, below it for crawl 0, and negative exactly for a crawl on an empty quality line |
| QualityTrim.FivePrime | SeqTrim.py:225-260 | the reference 5' trim: both strings sliced from that start, so neither grows, and crawl 0 keeps at least one base |
| QualityTrim.TrimFivePrime | SeqTrim.py:231-260 | the 5' trim loops compute the reference 5' trim, for every crawl |
| QualityTrim.TrimToFirstPass | SeqTrim.py:232-237 | the crawl-0 loop keeps `[i:]` for the first passing `i`, or `[len-1:]` when none passes |
| QualityTrim.TrimFivePrimeCrawl | SeqTrim.py:238-260 | the crawl loops keep the read from the cut the reference 5' trim defines |
| QualityTrim.ThreePrimeEnd | SeqTrim.py:272-278 | where the crawl-0 3' trim ends the kept slice: between 1 and the length, with every base after it failing |
| QualityTrim.ThreePrimeStart | SeqTrim.py:279-287 | where the 3' crawl window starts in the reversed line: at most the length plus one, every base after the last passing one fails, and a start below 2 means no base passes |
| QualityTrim.ThreePrimeTrim | SeqTrim.py:279-298 | how many characters the 3' crawl drops from the reversed strings: at most the length, and negative only on a line shorter than 2 |
| QualityTrim.ThreePrime | SeqTrim.py:266-302 | the reference 3' trim: neither string grows, and crawl 0 keeps at least one base |
| QualityTrim.TrimThreePrime | SeqTrim.py:272-302 | the 3' trim loops compute the reference 3' trim, for every crawl |
| QualityTrim.TrimToLastPass | SeqTrim.py:273-278 | the crawl-0 loop keeps `[0:i+1]` for the last passing `i`, or `[0:1]` when none passes |
| QualityTrim.TrimThreePrimeCrawl | SeqTrim.py:279-302 | the reversed crawl keeps the read up to the cut the reference 3' trim defines |
| QualityTrim.ClipAtFirstFailure | SeqTrim.py:323-325 | the global trim's cut: both strings cut before the first failing base, so what is kept of the quality line passes throughout |
| QualityTrim.CountFailures | SeqTrim.py:314-321 | the counting loop returns the number of failing bases and the first failing index, which is absent exactly when the count is 0 |
| QualityTrim.Retrieved | SeqTrim.py:344-352 | an empty sequence becomes an absent read, an absent read stays absent, anything else is returned as it is |
| QualityTrim.RetrieveIdempotent | SeqTrim.py:344-352 | retrieving a retrieved read changes nothing |
| QualityTrim.FivePrimeSlicesTogether | SeqTrim.py:258-259 | the 5' trim leaves suffixes of both strings, cut at the same place, so equal lengths stay equal |
| QualityTrim.FivePrimeWithoutCrawl | SeqTrim.py:232-237 | crawl 0 keeps the read from the first passing base, which passes; with none passing only the last base is kept |
| QualityTrim.FivePrimeWithCrawl | SeqTrim.py:238-260 | crawl > 0 after the first passing base i keeps from i exactly when the next `crawl` bases all pass, otherwise from one past the last failing one, and every kept base of the window passes |
| QualityTrim.CrawlForward | SeqTrim.py:249-256 | the forward crawl after a passing base stops one past the last failing base of the window, or at that base |
| QualityTrim.FivePrimeWithCrawlNoPass | SeqTrim.py:240-260 | crawl > 0 with no passing base drops the first `min(crawl, len)` bases |
| QualityTrim.FivePrimeIdempotent | SeqTrim.py:232-237 | a second crawl-0 5' trim changes nothing |
| QualityTrim.ThreePrimeSlicesTogether | SeqTrim.py:301-302 | the 3' trim leaves prefixes of both strings, cut at the same place, so equal lengths stay equal |
| QualityTrim.ThreePrimeWithoutCrawl | SeqTrim.py:273-278 | crawl 0 keeps the read up to and including the last passing base; with none passing only the first base is kept |
| QualityTrim.ThreePrimeWithCrawlKeeps | SeqTrim.py:292-302 | reversing, dropping and reversing back keeps a prefix of each string |
| QualityTrim.ThreePrimeWithCrawl | SeqTrim.py:279-302 | crawl > 0 after the last passing base i inspects bases i-2 down to i-1-crawl and keeps up to the lowest failing one there, or up to and including i when none fails |
| QualityTrim.CrawlBackward | SeqTrim.py:283-298 | the reversed crawl, read in the original order, cuts at the lowest failing base of [i-1-crawl, i-1), or after i |
| QualityTrim.LastAgrees | SeqTrim.py:294 | two quality lines that agree on the window give the same search result there |
| QualityTrim.LastPassKept | SeqTrim.py:283-287 | changing bases before the last passing base does not move it |
| QualityTrim.ThreePrimeTrimSkipsBase | SeqTrim.py:286-294 | the base just before the last passing one is never inspected: changing its quality does not move the 3' cut |
| QualityTrim.ThreePrimeSkipsBase | SeqTrim.py:286-302 | so the kept sequence and the kept length do not change either |
| QualityTrim.ThreePrimeWithCrawlNoPass | SeqTrim.py:281-302 | crawl > 0 with no passing base keeps the first `min(2, len)` bases |
| QualityTrim.ThreePrimeIdempotent | SeqTrim.py:273-278 | a second crawl-0 3' trim changes nothing |
| QualityTrim.ClipAtFirstFailureKeeps | SeqTrim.py:323-325 | clipping keeps prefixes cut at the same place, all of whose quality characters pass, and changes the read exactly when some base fails |
| QualityTrim.ClipAtFirstFailureIdempotent | SeqTrim.py:323-325 | clipping twice is clipping once |
| SeqTrim.PhredToASCII | SeqTrim.py:188-193 | a score in 0..93 gives the character with code score + 33, which decodes back to the score; any other score fails |
| SeqTrim.Convert | SeqTrim.py:177-186 | the conversion succeeds exactly on Phred+64 lines, keeps the length and shifts each character down by 31; otherwise it fails with no output |
| SeqTrim.PercentRule | SeqTrim.py:323 | the percentage test with floor division; it holds whenever fewer bases fail than the percentage |
| SeqTrim.PercentTrim | SeqTrim.py:313-325 | the read after a successful global trim: prefixes of both strings, and when changed, a quality line that passes throughout |
| SeqTrim.PercentRuleIff | SeqTrim.py:323 | the percentage test holds exactly when `count mod p >= (100 - p) * (count div p)` |
| SeqTrim.DefaultPercentKeepsRead | SeqTrim.py:309-325 | with the default percentage 1 the test holds only when no base fails, so the read is never changed |
| SeqTrim.PercentRuleHolds | SeqTrim.py:323 | with fewer failing bases than the percentage, or a percentage of 100 or more, the test always holds |
| SeqTrim.PercentTrimClips | SeqTrim.py:323-325 | in those cases the global trim clips at the first failing base |
| SeqTrim.Trim.constructor | SeqTrim.py:201-217 | for a score in 0..93, stores the sequence and quality line as given and the score's Sanger character as the threshold |
| SeqTrim.Trim.Create | SeqTrim.py:201-223 | construction succeeds exactly for a score in 0..93, and the threshold is then that score's Sanger character |
| SeqTrim.Trim.FivePrime | SeqTrim.py:225-264 | succeeds exactly for 0 <= crawl <= len(quality), replacing the read by its 5' trim; otherwise fails with the matching error and changes nothing |
| SeqTrim.Trim.ThreePrime | SeqTrim.py:266-307 | succeeds exactly for 0 <= crawl <= len(quality), replacing the read by its 3' trim; otherwise fails with the matching error and changes nothing |
| SeqTrim.Trim.GlobalTrim | SeqTrim.py:309-327 | a negative percentage fails, a percentage of 0 fails in the division, otherwise the read is clipped exactly when the percentage test holds |
| SeqTrim.Trim.MinLength | SeqTrim.py:329-342 | a negative length fails; otherwise both fields become absent exactly when the sequence is shorter than the length, and are unchanged otherwise |
| SeqTrim.Trim.Retrieve | SeqTrim.py:344-352 | returns the retrieved pair and leaves it as the new state |
| PhredTools.PhredToASCII | PhredTools.py:189-195 | a score in 0..93 gives the one-character string of code score + 33; any other score gives the fixed message |
| PhredTools.Convert | PhredTools.py:177-187 | a Phred+64 line is converted with the same length, each character shifted down by 31; the message is returned exactly when some character is not Phred+64 |
| PhredTools.CountTrim | PhredTools.py:316-327 | the read after a global trim with an allowance: prefixes of both strings, unchanged below the allowance, passing throughout at or above it |
| PhredTools.CountTrimChanges | PhredTools.py:311-328 | the global trim changes the read exactly when some base fails and at least `NumBases` do; with no failing base it is unchanged even for 0; what is left passes |
| PhredTools.CountTrimIdempotent | PhredTools.py:311-328 | a second global trim with the same allowance changes nothing |
| PhredTools.EndTrim.constructor | PhredTools.py:203-223 | for a score in 0..93, stores the sequence and quality line as given and the score's Sanger character as the threshold |
| PhredTools.EndTrim.Create | PhredTools.py:203-227 | construction succeeds exactly for a score in 0..93, and the threshold is then the one character `PhredToASCII` returns |
| PhredTools.EndTrim.FivePrime | PhredTools.py:231-268 | succeeds exactly for crawl >= 0, replacing the read by its 5' trim; a negative crawl fails and changes nothing |
| PhredTools.EndTrim.ThreePrime | PhredTools.py:270-309 | succeeds exactly for crawl >= 0, replacing the read by its 3' trim; a negative crawl fails and changes nothing |
| PhredTools.EndTrim.GlobalTrim | PhredTools.py:311-330 | a negative allowance fails; otherwise the read is clipped at the first failing base exactly when at least `NumBases` bases fail |
| PhredTools.EndTrim.MinLength | PhredTools.py:332-343 | a negative length fails; otherwise both fields become absent exactly when the sequence is shorter than the length |
| PhredTools.EndTrim.Retrieve | PhredTools.py:345-353 | returns the retrieved pair and leaves it as the new state |
| Scenarios.FivePrimeDropsLeadingRun | SeqTrim.py:232-237 | quality "!!!!IIII" at threshold 40 keeps "IIII" and the last four bases |
| Scenarios.ThreePrimeDropsTrailingRun | SeqTrim.py:273-278 | quality "IIII!!!!" at threshold 40 keeps "IIII" and the first four bases |
| Scenarios.GlobalTrimClipsAtAllowance | PhredTools.py:316-328 | with an allowance of 2, a read with 2 failing bases is clipped at the first one |
| Scenarios.GlobalTrimBelowAllowance | PhredTools.py:316-328 | with an allowance of 2, a read with 1 failing base is unchanged |
| Scenarios.DiscardShortRead | SeqTrim.py:329-352 | a read of length 3 under a minimum length of 5 is retrieved as absent |
| Scenarios.KeepLongEnoughRead | PhredTools.py:332-353 | a read of length 5 under a minimum length of 5 is retrieved unchanged |
| Scenarios.RetrieveEmptiedRead | SeqTrim.py:309-352 | a read clipped to nothing is retrieved as absent, and retrieving again gives the same pair |
| Scenarios.RefuseScoreAbove93 | SeqTrim.py:215-223 | a score of 100 builds no trimmer |

## Left out

- Ending the process and printing: every `sys.exit` and `print` becomes an
  error value (`SeqTrim.Exit`, `PhredTools.Exit`) that names the failure. The
  message text is not modelled, except for the two strings PhredTools'
  `Convert` and `PhredToASCII` return. The `sys.exit(1)` after each of those
  returns cannot be reached.
- Dynamic type checks (`type(x) == str`, `type(x) == int`): Dafny's types
  enforce them, so only the range checks remain. Calls with non-integer
  arguments are not modelled. This includes the default `Length=None` of
  `MinLength` and `NumBases=None` of PhredTools' `GlobalTrim`, which Python 2
  refuses with the error path.
- Default arguments: callers pass the crawl or percentage explicitly. The
  defaults of the source (`Crawl=0`, `PercentBases=1`) are covered by the
  crawl-0 lemmas and `SeqTrim.DefaultPercentKeepsRead`.
- Python runtime crashes are preconditions, not outcomes. A crawl of 0 on an
  empty quality line leaves the loop variable `i` unbound. Trimming an absent
  read calls `len(None)`. `MinLength` on an absent read calls `len(None)`.
- Inheritance of `Convert` by the trimmers, and the commented-out
  alternatives: the trimmers call the module's `PhredToASCII` directly.
- The tables as Python dictionaries: they are functions on character codes
  here, and the entry lemmas tie them to the listed entries. Python's
  dictionary hashing, under which `True` or `1.0` would also be keys, is not
  modelled.
- Byte strings: in Python 2 a `str` is a byte string and `>=` compares bytes.
  The model compares characters by code point, which agrees on quality lines
  made of ASCII characters, the only ones the tables hold.
- SeqTrim.GlobalTrim: the percentage test is modelled with Python 2 floor
  division only. Under Python 3 division the behaviour would differ.
- The trimmers' `QScore` attribute on a failed construction: construction
  fails, so no object is returned.
