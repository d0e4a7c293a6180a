# CreditTech in Dafny

CreditTech scores rural borrowers from consented data, explains and audits the scores, and hands approved
applications to lending partners. This project models the algorithms and protocols at its core and proves what they
promise:

- **The fallback PDF renderer** (`TextLayout`, `Utf8`, `Bytes`, `PdfWriter`) as the loops that wrap, paginate,
  allocate objects and serialise them, against a reader of its own (`PdfReader`) that follows ISO 32000-1 from
  `startxref` down to the strings shown. `PdfStrings`, `PdfContent`, `PdfStructure` and `PdfRoundTrip` show that the
  two undo each other.
- **The consent ledger** (`ConsentLedger`, `ConsentInvariants`, `ConsentTheorems`, `ConsentRecords`, `ConsentTrail`,
  `ConsentService`, `Retention`): a hash chain per borrower with creation, supersession, lazy and eager expiry,
  revocation, verification and the authorisation gate, as functions on tables, as services over mutable tables, and
  over every run of events.
- **Scoring** (`Rounding`, `Logarithm`, `Calibration`, `Binning`, `Woe`, `WoeTheorems`, `WoeMeaning`,
  `WoeMonotonicity`, `Contributions`, `Scorecard`, `ScorecardMeaning`, `WoeScorecard`, `PointsTheorems`,
  `PointsLabels`): weight-of-evidence binning, the scalar and the column lookup, the integer points
  table against the real log-odds, calibration to 300-900, coefficient export and closed-form Shapley values.
- **The rate limiter** (`RateLimiter`): one queue per client against the full history of answers.
- **Monitoring and evaluation** (`Drift`, `DriftMeaning`, `Ks`, `Fairness`, `Recourse`, `RecourseGreedy`): stability
  indices, the two Kolmogorov-Smirnov statistics, the fairness gate, and greedy counterfactual recourse.
- **Decisions and handoff** (`ScoringUtils`, `Decisioning`, `HandoffTheorems`, `HandoffRecords`,
  `HandoffService`): score normalisation, the append-only decision log, idempotent submission and the partner's
  webhook as steps of one machine.

Code that updates state is a class or a loop proved against a specification function; what the source promises is
then proved about that function. Numbers are mathematical: floats are exact reals with the explicit `round` and `int`
calls of the source, and `ln` is a parameter known only to be strictly increasing, zero at one and to turn products
into sums. A hash is a parameter that is injective where a theorem says so; compression is a pair of functions that
undo each other. Tables are sequences of rows in insertion order, which stands for `created_at` order, and one event
is one transaction. `Wrappers` and `Sequences` hold shared helpers. Lemmas switch automatic induction off, so each
proof rests on its own body.

Where code and documentation disagree the model follows the code, and the disagreement is a theorem:

- `TextRoundTrip`: text comes back verbatim exactly when there is some line and no wrapped line holds a carriage return
  (`NoCarriageReturnAfterWrap` says when wrapping cannot introduce one); an empty document comes back as one empty line.
- `MonotoneFitIff`: the class docstring promises monotonic bins (ml/features/woe.py:75-80), but nothing enforces them;
  weights rise from bin to bin exactly when the smoothed good-to-bad ratios do, and `WoeCanFall` has a fit where they
  fall and rise.
- `TableCorrectIff`, `LabelsDistinctIff`: the points table is keyed by a two-decimal label, so a lookup can find another
  bin's points (`LabelsCanCollide`); no three consecutive cut-offs may print alike.
- `PointsMirrorCalibration`, `PointsFallAsScoresRise`: points fall with the log-odds while calibrated scores rise.
- `DoublingOddsAddsTwenty`: twenty points per doubling of the odds holds exactly above the floor.
- `ExpirySilentIff`: the purge, and nothing else, expires consents without an audit row.
- `OverallStatusIff`: the overall drift status is read off a rounded index, each column's off an unrounded one.
- `TiesDecide`: with tied scores the labels the statistic reads can depend on the sort, and so can its value
  (`TiesChangeKs`).
- `PassesOnNothing`: the fairness gate passes on a period it has no rows for.
- `SomePathIff`: recourse measures a gain at the full target but applies the rounded one (`GainWithoutPath`).
- `IntervalBoundedIff`, `AcrossHundredIff`, `RawBandAgreesIff`, `HeaderAgreesIff`: the uniform score form promises
  coherent scales, bounded intervals and one band everywhere (services/core/shared/scoring_utils.py:1-8); the order of
  scores breaks at 100, given bounds are not clamped, and the handoff reads the band off the raw number.
- `ShowsNewestIff`: a later decision reaches only the score's first application (`SecondPartnerLags`).

## Model

| member | source | states |
|---|---|---|
| `TextLayout.AppendWrapped` | services/core/dashboard/pdf.py:44-56 | the cutting loop on one line terminates and appends exactly that line's pieces, which `FilledLines` characterises |
| `TextLayout.Wrap` | services/core/dashboard/pdf.py:38-56 | the whole wrap loop gives the pieces of every line, in order |
| `TextLayout.FilledLines` | services/core/dashboard/pdf.py:48-55 | every over-long line is filled as far as it goes: the first piece ends at the last space of its characters 1 to 89, or after 90 when there is none, and the other pieces are those of the rest without its leading whitespace |
| `TextLayout.LineByLine` | services/core/dashboard/pdf.py:44-56 | a line that fits, even empty, is its own piece, and the pieces of the text are those of its lines in order |
| `TextLayout.WrapKeepsText` | services/core/dashboard/pdf.py:44-56 | the non-whitespace text of the input survives in order, and no piece is longer than 90 characters |
| `TextLayout.WrapKeepsWords` | services/core/dashboard/pdf.py:44-56 | a line without a run of more than 90 characters between spaces keeps its words unsplit |
| `TextLayout.PaginateShape` | services/core/dashboard/pdf.py:58-59 | pages concatenate to the wrapped lines, none is empty or too long, all but the last hold 49 lines |
| `Utf8.DecodeOfEncode` | services/core/dashboard/pdf.py:84-88 | decoding undoes UTF-8 encoding of every string |
| `Bytes.Pad10Meaning` | services/core/dashboard/pdf.py:124 | a zero-padded offset has ten digits exactly below 10^10, and always reads back |
| `PdfWriter.BuildContent` | services/core/dashboard/pdf.py:78-90 | the loop over a page's lines builds its content stream |
| `PdfWriter.AddPages` | services/core/dashboard/pdf.py:77-104 | the page loop appends a content and a page object per page and collects the page ids |
| `PdfWriter.BuildObjects` | services/core/dashboard/pdf.py:64-109 | with the Pages placeholder patched in place, the object table is the specified one and the catalog is object 1 |
| `PdfWriter.WriteFile` | services/core/dashboard/pdf.py:112-128 | the growing buffer ends as header, objects, table and trailer with every offset as recorded |
| `PdfWriter.WriteEntries` | services/core/dashboard/pdf.py:123-124 | the loop writes one entry per recorded offset, in order |
| `PdfWriter.WriteXref` | services/core/dashboard/pdf.py:120-128 | table, trailer and `startxref` follow the body |
| `PdfWriter.MinimalPdf` | services/core/dashboard/pdf.py:32-128 | the whole renderer yields the file the round trip is proved about |
| `PdfStrings.EscapeIsOnePass` | services/core/dashboard/pdf.py:61-62 | three chained replacements equal one left-to-right pass |
| `PdfStrings.ReadLiteralOfEscape` | services/core/dashboard/pdf.py:61-88 | reading a literal string (section 7.3.4.2 of ISO 32000-1) undoes escaping and encoding, up to end-of-line markers |
| `PdfStrings.NormalizeEolIdentity` | services/core/dashboard/pdf.py:61-88 | reading changes a text exactly when it holds a carriage return |
| `PdfContent.ReadContentStream` | services/core/dashboard/pdf.py:78-90 | a page's operators read back as its lines, placed from the top-left text position |
| `PdfContent.LayoutAt` | services/core/dashboard/pdf.py:78-90 | line k is drawn 14k points under the first |
| `PdfStructure.OffsetLandsOnObject` | services/core/dashboard/pdf.py:114-119 | each recorded offset lands on `i 0 obj` followed by exactly the i-th body |
| `PdfStructure.ObjectAtFinds` | services/core/dashboard/pdf.py:114-124 | following a table entry reaches its object |
| `PdfStructure.ReadStreamOf` | services/core/dashboard/pdf.py:91-96 | the declared length delimits the stream data, whatever its bytes |
| `PdfStructure.ReadPagesOf` | services/core/dashboard/pdf.py:106-109 | `/Kids` and `/Count` read back as exactly the page ids |
| `PdfStructure.ReadPageOf` | services/core/dashboard/pdf.py:98-104 | a page reads back with parent 2, its font and its content |
| `PdfStructure.ReadCatalogOf` | services/core/dashboard/pdf.py:70-73 | the catalog reads back as pointing at object 2 |
| `PdfStructure.EntryWidth` | services/core/dashboard/pdf.py:124 | an entry has the 20 bytes section 7.5.4 demands exactly when its offset is below 10^10 |
| `PdfStructure.ReadXrefOf` | services/core/dashboard/pdf.py:120-126 | reading the table and trailer recovers every offset and the root if all offsets fit ten digits, and fails otherwise |
| `PdfStructure.ReadStartXrefOf` | services/core/dashboard/pdf.py:120-128 | the end of the file gives the table's offset (section 7.5.5) |
| `PdfRoundTrip.ObjectTable` | services/core/dashboard/pdf.py:64-109 | which object each number names |
| `PdfRoundTrip.ReferencesResolve` | services/core/dashboard/pdf.py:71-109 | every reference names an existing object of the right kind, and the hard-coded `2 0 R` is the patched Pages object |
| `PdfRoundTrip.ReadPdfOfRender` | services/core/dashboard/pdf.py:32-128 | for every input, reading the rendered file, header and literals included, yields every page with every line in place if all offsets fit ten digits, and fails otherwise |
| `PdfRoundTrip.SmallIsReadable` | services/core/dashboard/pdf.py:112-128 | a file within 10^10 bytes is readable |
| `PdfRoundTrip.TextRoundTrip` | services/core/dashboard/pdf.py:32-128 | the wrapped lines of every readable file come back in order, verbatim exactly when there is some line and none holds a carriage return |
| `PdfRoundTrip.NoCarriageReturnAfterWrap` | services/core/dashboard/pdf.py:44-56 | lines without carriage returns stay without after wrapping |
| `PdfRoundTrip.NoLineBelowMargin` | services/core/dashboard/pdf.py:58-90 | every line read back starts at x = 54, between y = 60 and y = 750, 14 points apart |
| `PdfRoundTrip.XrefEntryCorrect` | services/core/dashboard/pdf.py:114-128 | while offsets fit ten digits entry k sits in its own 20 bytes and leads to object k |
| `ConsentInvariants.StepKeepsInv` | services/core/consent/service.py:118-350 | every operation keeps chain, single ACTIVE record per borrower and purpose, and audit correspondence |
| `ConsentInvariants.ReachableInv` | services/core/consent/service.py:71-350 | they hold in every ledger any run of events reaches |
| `ConsentInvariants.RunEvolves` | services/core/consent/service.py:118-350 | over any continuation hashed fields never change, non-ACTIVE statuses are final, audit rows are only appended |
| `ConsentTheorems.SortedCanonical` | services/core/consent/service.py:79-101 | source lists hash alike exactly when they hold the same sources as often |
| `ConsentTheorems.OneChain` | services/core/consent/service.py:71-114 | a borrower's records form one chain from the genesis hash to the head hash |
| `ConsentTheorems.HeadHashDeterminesHistory` | services/core/consent/service.py:71-165 | equal head hashes mean equal length and equal hashed fields of every record, sources up to order |
| `ConsentRecords.ChainsApart` | services/core/consent/service.py:71-114 | two borrowers never stand at the same hash, in one reachable ledger or in two, with or without consents |
| `ConsentTheorems.TamperingIsNoticed` | services/core/consent/service.py:339-352 | re-hashing a record succeeds exactly when its hashed fields are unedited |
| `ConsentTheorems.VerifyMeaning` | services/core/consent/service.py:319-375 | a record verifies as valid exactly when ACTIVE and unexpired, and its own hash always re-verifies |
| `ConsentRecords.ReportMeaning` | services/core/consent/service.py:324-375 | the days left are the whole days until expiry, each issue is listed exactly when it is one, and the record is valid exactly when none is |
| `ConsentRecords.VerifyStores` | services/core/consent/service.py:319-362 | verification writes only the expiry it finds and its own audit row, in that order |
| `ConsentTheorems.CheckActiveMeaning` | services/core/consent/service.py:393-427 | the gate, looking at one candidate only, answers exactly when some record authorises the pull, and that record verifies |
| `ConsentTheorems.CreateTakesOver` | services/core/consent/service.py:118-212 | creating supersedes exactly the active ones of that purpose, and the gate then answers with the new record |
| `ConsentRecords.CreateStores` | services/core/consent/service.py:118-190 | the new record holds what was asked for, runs for the days requested, is chained to the borrower's newest, and the trail gets the superseded ones and then the creation |
| `ConsentTheorems.RevokeClosesGate` | services/core/consent/service.py:267-315 | revocation succeeds exactly on an active unexpired record, changes it alone, withdraws the borrower's repayments and closes the gate |
| `ConsentRecords.RevokeStores` | services/core/consent/service.py:267-315 | one audit row in the revoker's name on success; which refusal is given when, and that none changes anything |
| `ConsentRecords.TouchStores` | services/core/consent/service.py:225-238 | a read expires a record exactly when it is active past its expiry, with one audit row |
| `ConsentTrail.StepSilent` | services/core/consent/service.py:118-350 | one transaction leaves an unlogged expiry exactly where there was one or where it is a purge that expires |
| `ConsentTrail.ExpirySilentIff` | services/core/monitoring/service.py:271-277 | over every run an expired record lacks its EXPIRED_AUTO row exactly when some purge found it active past its expiry |
| `ConsentTheorems.PurgeExpiresSilently` | services/core/monitoring/service.py:263-306 | the shortest such run, beside the read that would have left the row |
| `ConsentServices.ConsentService.GetLatestHash` | services/core/consent/service.py:103-114 | the newest hash of the borrower, else the genesis hash |
| `ConsentServices.ConsentService.SupersedeExisting` | services/core/consent/service.py:192-212 | marks each active record of the purpose, one audit row each |
| `ConsentServices.ConsentService.CreateConsent` | services/core/consent/service.py:118-190 | refines ledger creation and keeps the invariant |
| `ConsentServices.ConsentService.GetConsent` | services/core/consent/service.py:216-238 | reads a record, expiring it first when its time is up |
| `ConsentServices.ConsentService.RevokeConsent` | services/core/consent/service.py:267-315 | refines ledger revocation with each of its refusals |
| `ConsentServices.ConsentService.VerifyConsent` | services/core/consent/service.py:319-375 | refines ledger verification, issue list and audit row included |
| `ConsentServices.ConsentService.CheckActiveConsent` | services/core/consent/service.py:393-427 | answers exactly when an authorising record exists |
| `Retention.PurgeMeaning` | services/core/monitoring/service.py:263-306 | exactly the borrowers with records but no consent in force lose name, phone and reference, the others are untouched, and the newly anonymised are the chosen ones |
| `Retention.PurgeForgets` | services/core/monitoring/service.py:295-302 | stores that differ only in what they say of such borrowers are equal after the purge: nothing identifying survives it |
| `Retention.SecondPurgeDoesNothing` | services/core/monitoring/service.py:263-306 | a second purge at the same time changes nothing and counts nobody |
| `Retention.LazyThenEager` | services/core/consent/service.py:225-238 | lazy expiries before the purge change neither the statuses it leaves nor whom it anonymises |
| `Retention.DataRetentionWorker.AnonymiseEach` | services/core/monitoring/service.py:295-302 | the loop wipes each chosen borrower, as `PurgeMeaning` says field by field, and counts them |
| `Retention.DataRetentionWorker.PurgeExpiredConsentData` | services/core/monitoring/service.py:263-306 | refines eager expiry followed by anonymisation; the count is the number chosen |
| `Calibration.ScoreReaches` | ml/training/scorecard.py:105-113 | the score reaches n exactly when (odds/50)^20 reaches 2^(n-600) |
| `Calibration.OddsMeaning` | ml/training/scorecard.py:107-109 | odds times the complement give the probability back, held between 1 to 999 and 999 to 1 |
| `Calibration.PercentNear` | ml/training/scorecard.py:105-107 | the score out of 100 is a whole number of tenths within half a tenth of the percentage |
| `Calibration.CalibrationMonotone` | ml/training/woe_scorecard.py:155-162 | a higher probability never scores lower on either scale |
| `Calibration.ScoreCeilings` | ml/training/scorecard.py:105-113 | no probability scores above 686, none up to 0.99 above 619 |
| `Calibration.DoublingOddsAddsTwenty` | ml/training/woe_scorecard.py:76-78 | doubling the odds adds exactly 20 points if and only if (odds/50)^20 >= 2^-300, the raw score not lying under the floor |
| `Calibration.DoublingCanAddLess` | ml/training/scorecard.py:105-113 | at the lowest odds it adds less |
| `Logarithm.DivergenceTerm` | ml/features/woe.py:143-148 | a difference times the logarithm of the ratio is non-negative, zero only for equal shares |
| `Binning.QuantileCutsValid` | ml/features/woe.py:124-133 | the cut-offs run strictly increasing from minus to plus infinity, whatever the percentiles are |
| `Binning.ExactlyOneBin` | ml/features/woe.py:135-138 | a value satisfies the test of exactly one bin |
| `Binning.CountsConserved` | ml/features/woe.py:135-141 | counting by bin loses and duplicates nothing |
| `Woe.BuildValueBins` | ml/features/woe.py:135-164 | the loop over the cut-offs builds each bin and accumulates the information value |
| `Woe.FitFeatureLoop` | ml/features/woe.py:94-193 | the fit with its errors, value bins, missing bin and rounding |
| `Woe.TransformValueLoop` | ml/features/woe.py:204-221 | the first matching bin's weight, else the missing weight |
| `Woe.WriteBin` | ml/features/woe.py:238-246 | one bin overwrites exactly the array entries it masks |
| `Woe.TransformColumn` | ml/features/woe.py:230-247 | the column transform fails exactly on non-numeric cells and otherwise lets the last bin win |
| `WoeTheorems.CutoffsValid` | ml/features/woe.py:115-133 | the cut-offs of every fit are strictly increasing |
| `WoeMeaning.CutoffsMeaning` | ml/features/woe.py:118-134 | few distinct values are cut half-way between neighbours, many at the distinct inner percentiles, or at the median when they collapse |
| `WoeTheorems.FitIsFitted` | ml/features/woe.py:135-193 | a successful fit has one bin per interval plus the missing bin |
| `WoeMeaning.FitSucceedsIff` | ml/features/woe.py:101-117 | a fit fails exactly without a good or a bad borrower, or else on a value that is no number |
| `WoeMeaning.FitCounts` | ml/features/woe.py:136-193 | every bin of every fit, the missing one included, counts the rows that belong in it and the good ones among them, and stores the rounded weight and information value of those counts |
| `WoeMeaning.MissingWeight` | ml/features/woe.py:166-200 | the weight of missing values is the rounded logarithm of the smoothed good share over the smoothed bad share of the missing rows |
| `WoeMeaning.FitLabels` | ml/features/woe.py:151-153 | a bin's label prints its two ends to the nearest hundredth, and only the last bin is the missing one |
| `WoeMeaning.IvIsTheSum` | ml/features/woe.py:146-201 | the feature's information value is the sum of those of its bins, up to half a unit of the fifth decimal for each and for the total |
| `WoeTheorems.MatchesExactlyOnce` | ml/features/woe.py:33-46 | every real value matches exactly one bin of a fitted feature |
| `WoeMeaning.LookupMeaning` | ml/features/woe.py:204-221 | a lookup on any fit gives the weight of the bin a cell matches, and the missing weight to a missing cell and to whatever matches none |
| `WoeTheorems.VectorisedEqualsScalar` | ml/features/woe.py:204-250 | last write wins over the column agrees with first match wins, missing values included |
| `WoeTheorems.BinningConserves` | ml/features/woe.py:135-193 | counts and goods sum to the sample's, bads exactly when every target is 0 or 1 |
| `WoeTheorems.IvNonNegative` | ml/features/woe.py:143-193 | every bin's and the feature's information value is non-negative |
| `WoeMonotonicity.FitWeighed` | ml/features/woe.py:135-164 | every value bin of a fit has non-negative bads and stores the rounded weight of its own counts |
| `WoeMonotonicity.WoeOrder` | ml/features/woe.py:143-164 | any two value bins of a fit weigh, before rounding, exactly as their smoothed good-to-bad ratios are ordered, and stored weights never go against them |
| `WoeMonotonicity.MonotoneFitIff` | ml/features/woe.py:75-193 | the raw weights of a fit rise from bin to bin exactly when the ratios do, and then the stored weights rise |
| `WoeMonotonicity.WoeCanFall` | ml/features/woe.py:94-193 | a sample that fits, with a stored weight smaller in the middle bin than on either side |
| `Contributions.SortMeaning` | ml/evaluation/explain.py:88 | the explanation list is ordered by size, then name, and only rearranged |
| `Contributions.SortIgnoresOrder` | ml/evaluation/explain.py:88 | with distinct names the sorted list does not depend on the order before |
| `Contributions.TotalOfSort` | ml/training/woe_scorecard.py:182 | sorting keeps the total |
| `Scorecard.AccumulateLogOdds` | ml/training/scorecard.py:91-99 | the accumulation loop yields the log-odds, skipping unknown and uncoercible features |
| `Scorecard.ComputeShapValues` | ml/evaluation/explain.py:69-89 | the explanation loop and sort |
| `Scorecard.ShapleyEfficiency` | ml/evaluation/explain.py:69-89 | contributions sum to the log-odds minus those of the reference borrower over the present features |
| `ScorecardMeaning.ShapleyMarginal` | ml/evaluation/explain.py:69-89 | a contribution is the change of the log-odds when its feature alone moves from the reference value to the borrower's |
| `Scorecard.ExplanationDeterministic` | ml/evaluation/explain.py:69-89 | the explanation does not depend on dictionary iteration order |
| `Scorecard.ExportKeepsLogOdds` | ml/training/scorecard.py:232-239 | raw-unit coefficients give the standardised model's log-odds on every input |
| `ScorecardMeaning.ExportScoresAlike` | ml/training/scorecard.py:91-103 | the runtime sum over a borrower's features gives, for an exported model, the trained model's log-odds |
| `ScorecardMeaning.CoerceMeaning` | ml/training/scorecard.py:77-89 | which flags, grades and texts are used, and as what |
| `WoeScorecards.WoEScorecard.constructor` | ml/training/woe_scorecard.py:80-93 | the constructor fills the points table, later bins overwriting equal labels |
| `WoeScorecards.WoEScorecard.BuildFeatureTable` | ml/training/woe_scorecard.py:88-93 | one feature's label-to-points table |
| `WoeScorecards.WoEScorecard.PredictLogOdds` | ml/training/woe_scorecard.py:103-109 | the accumulation loop yields the WoE log-odds |
| `WoeScorecards.WoEScorecard.MatchBin` | ml/training/woe_scorecard.py:144-150 | the label of the first matching bin that is not the missing one |
| `WoeScorecards.WoEScorecard.ComputePoints` | ml/training/woe_scorecard.py:136-153 | the clamped sum of table look-ups |
| `WoeScorecards.WoEScorecard.ComputeShapValues` | ml/training/woe_scorecard.py:164-183 | the explanation loop and sort in WoE space |
| `PointsTheorems.TableCorrectIff` | ml/training/woe_scorecard.py:88-93 | every bin finds its own points exactly when bins sharing a label carry equal points |
| `PointsLabels.LabelsDistinctIff` | ml/features/woe.py:150-152 | a fitted feature has distinct labels exactly when no three consecutive finite cut-offs print alike |
| `PointsLabels.LabelsCanCollide` | ml/training/woe_scorecard.py:88-93 | a fit and weights for which a bin's label leads to another bin's points, 40 or more away |
| `PointsTheorems.SameBin` | ml/training/woe_scorecard.py:136-153 | the label looked up is that of a bin whose weight the log-odds use |
| `PointsTheorems.FittedEndsWithMissing` | ml/features/woe.py:166-193 | every fit ends with its missing bin |
| `PointsTheorems.PointsErrorBound` | ml/training/woe_scorecard.py:80-153 | with m fitted features whose shared labels carry equal points, points differ from the clamped exact score by at most m/2 |
| `PointsLabels.FittedPointsErrorBound` | ml/training/woe_scorecard.py:80-153 | the same bound read off the cut-offs of the fits, whatever the weights |
| `PointsTheorems.PointsMirrorCalibration` | ml/training/woe_scorecard.py:76-82 | the exact score and the calibrated score before truncation mirror each other about the offset exactly while the probability is not clamped |
| `PointsTheorems.PointsFallAsScoresRise` | ml/training/woe_scorecard.py:136-162 | when log-odds grow by m/factor or more, computed points never rise and the calibrated score never falls |
| `PointsTheorems.WoeShapleyEfficiency` | ml/training/woe_scorecard.py:164-183 | contributions sum to exactly the log-odds minus the intercept |
| `PointsTheorems.WoeShapleyMarginal` | ml/training/woe_scorecard.py:164-183 | a contribution is what the log-odds lose when its feature is left out of the scorecard, shown beside the borrower's own value |
| `RateLimiter.RateLimitMiddleware.constructor` | services/core/shared/security_middleware.py:63-66 | no history and no queues at first |
| `RateLimiter.RateLimitMiddleware.Dispatch` | services/core/shared/security_middleware.py:68-86 | each answer is the one the full history calls for, and only the client's own queue changes |
| `RateLimiter.ServeAll` | services/core/shared/security_middleware.py:60-86 | over a run the queues give exactly the answers of the history |
| `RateLimiter.PrunedWindow` | services/core/shared/security_middleware.py:75-79 | the pruned queue is the history filtered to the window, and its length the window count |
| `RateLimiter.NoBurst` | services/core/shared/security_middleware.py:60-86 | no closed 60-second interval of a run holds more than the limit of one client's accepted requests |
| `RateLimiter.RunNoBurst` | services/core/shared/security_middleware.py:60-86 | the same of every sequence of requests with a non-decreasing clock |
| `RateLimiter.RefusalMeaning` | services/core/shared/security_middleware.py:75-85 | refused exactly when counted and the limit was accepted in the last 60 seconds |
| `RateLimiter.OnlyOwnQuotaMatters` | services/core/shared/security_middleware.py:75-85 | only what used a client's quota matters for its answer: refusals are free |
| `RateLimiter.RunOfClientAlone` | services/core/shared/security_middleware.py:68-86 | over every run a client gets the answers it would get alone |
| `Drift.CalculatePsi` | ml/evaluation/drift.py:76-155 | missing values dropped, bins over the expected sample, status of the unrounded index, or what the computation raises |
| `Drift.PsiFailsIff` | ml/evaluation/drift.py:119-130 | it raises exactly when the floor is not positive and some bin is empty of one of the samples |
| `Drift.AccumulateBins` | ml/evaluation/drift.py:112-143 | the loop over the bins accumulates index and rows until a bin raises |
| `Drift.PsiConserves` | ml/evaluation/drift.py:100-155 | expected and actual counts sum to both sample sizes |
| `DriftMeaning.ReportMeaning` | ml/evaluation/drift.py:100-155 | one bin between each two neighbouring cut-offs, with the counts of both samples, their floored shares and their term; the index is the sum of the contributions up to rounding |
| `Drift.TotalNonNegative` | ml/evaluation/drift.py:119-130 | the index is non-negative, zero exactly when the floored shares agree in every bin |
| `Drift.PsiNonNegative` | ml/evaluation/drift.py:76-155 | non-negative after rounding; zero, stable and green for a sample against itself |
| `Drift.ContributionsNonNegative` | ml/evaluation/drift.py:119-143 | every bin's contribution is non-negative |
| `Drift.CalculateCsi` | ml/evaluation/drift.py:158-197 | the loop over the columns is the fold, and rounding its maximum again changes nothing |
| `Drift.CsiMeaning` | ml/evaluation/drift.py:158-197 | exactly the evaluated columns are reported, the overall index is their maximum, the named column the first to reach it |
| `DriftMeaning.TiersRise` | ml/evaluation/drift.py:54-73 | drift starts at 0.10 and is severe from 0.25 on, a larger index is never called less drifted, and the colour goes with the tier |
| `Drift.RoundedStatusIff` | ml/evaluation/drift.py:54-73 | the rounded and the unrounded index tell different statuses exactly within half a step below a threshold |
| `Drift.OverallStatusIff` | ml/evaluation/drift.py:188-197 | the overall status is the named column's own exactly outside those ranges of its index |
| `KolmogorovSmirnov.KsAgree` | ml/training/scorecard.py:274-285 | on binary labels the two implementations agree with both classes present; else one says zero, the other NaN |
| `KolmogorovSmirnov.KsRange` | ml/training/validation.py:33-53 | with both classes in [0, 1], and one exactly when the ranking puts one class wholly before the other |
| `KolmogorovSmirnov.LargestGap` | ml/training/validation.py:49-52 | the statistic is the largest of the distances, and one of them |
| `KolmogorovSmirnov.GapMeaning` | ml/training/validation.py:44-52 | each distance times both class sizes is the difference of the counts multiplied across |
| `KolmogorovSmirnov.KsOfRescaled` | ml/training/validation.py:39-41 | unchanged by strictly increasing rescaling, whatever order ties get, when tied scores carry equal labels |
| `KolmogorovSmirnov.DistinctScoresAgree` | ml/training/validation.py:39-41 | distinct scores are such a case |
| `KolmogorovSmirnov.TiesDecide` | ml/training/validation.py:39-41 | the labels in score order are independent of ties exactly when tied scores carry equal labels |
| `KolmogorovSmirnov.TiesChangeKs` | ml/training/validation.py:39-53 | three equal scores whose statistic is one or less than one as the sort falls |
| `Fairness.Evaluate` | services/core/monitoring/governance.py:98-164 | `passed` is the declarative meaning, skipped plus evaluated are the period's rows, no period fails |
| `Fairness.NewestPeriod` | services/core/monitoring/governance.py:89-99 | without a requested period the gate looks at that of a row none is newer than |
| `Fairness.GroupByDimension` | services/core/monitoring/governance.py:115-122 | the grouping loop keeps order of first appearance and every counted row |
| `Fairness.CheckDimension` | services/core/monitoring/governance.py:124-155 | the three checks of one dimension |
| `Fairness.CheckApproval` | services/core/monitoring/governance.py:130-137 | one breach per row under the floor, in order |
| `Fairness.CheckOverride` | services/core/monitoring/governance.py:138-145 | one breach per row over the ceiling, in order |
| `Fairness.LowApprovalsIff` | services/core/monitoring/governance.py:130-137 | a floor breach is listed exactly when some row causes it |
| `Fairness.HighOverridesIff` | services/core/monitoring/governance.py:138-145 | a ceiling breach is listed exactly when some row causes it |
| `Fairness.SpreadIffPairs` | services/core/monitoring/governance.py:146-150 | largest minus smallest is within the gap exactly when every pair is |
| `Fairness.FairIffNoBreach` | services/core/monitoring/governance.py:98-164 | no breach exactly when every counted row meets its limits and every pair of a dimension its gap |
| `Fairness.MoreRowsStricter` | services/core/monitoring/governance.py:98-164 | adding rows anywhere, or reordering them, never turns a fail into a pass |
| `Fairness.TighterStricter` | services/core/monitoring/governance.py:98-164 | tightening thresholds never turns a fail into a pass |
| `Fairness.PassesOnNothing` | services/core/monitoring/governance.py:98-164 | a requested period evaluates nothing exactly when it has no counted row, and then passes whatever the thresholds |
| `Fairness.BuildLogMeaning` | services/core/monitoring/service.py:54-73 | an audit row's rates times its sample size are what was counted, and a sample under the minimum has no rates |
| `Fairness.BreachesRestOnLargeSamples` | services/core/monitoring/service.py:54-73 | every breach is true of the rows and rests on groups with the minimum sample |
| `Recourse.CounterfactualRecourseEngine.CandidateImprovements` | ml/evaluation/recourse.py:94-178 | the seven guarded offers, in order |
| `RecourseGreedy.CandidateIff` | ml/evaluation/recourse.py:94-178 | the candidates are exactly the improvements the rules name for those of the seven features that lack something |
| `Recourse.CounterfactualRecourseEngine.EvaluateGains` | ml/evaluation/recourse.py:180-196 | every candidate tried alone, those with a gain kept |
| `Recourse.CounterfactualRecourseEngine.Accumulate` | ml/evaluation/recourse.py:201-219 | the accumulating loop with its two exits is the greedy walk |
| `Recourse.CounterfactualRecourseEngine.GenerateRecourse` | ml/evaluation/recourse.py:77-227 | refines the plan that `PlanReplays`, `GreedyByGain` and `NothingMissed` characterise |
| `Recourse.NothingMore` | ml/evaluation/recourse.py:205-219 | after either exit the rest of the list would change nothing |
| `Recourse.SortMeaning` | ml/evaluation/recourse.py:198-199 | ordered by gain, only rearranged, ties in their order |
| `RecourseGreedy.GreedyByGain` | ml/evaluation/recourse.py:198-219 | for every pathway of a plan, each candidate with a larger gain, or an equal one and looked at earlier, is among the pathways before it or did not raise the score after some of them |
| `RecourseGreedy.FirstIsBest` | ml/evaluation/recourse.py:198-219 | the first pathway has the largest gain of the candidates that raise the score as shown |
| `RecourseGreedy.NothingMissed` | ml/evaluation/recourse.py:205-219 | a plan that neither reaches the target nor is full leaves out only candidates that were of no use after some of its pathways |
| `RecourseGreedy.PathwayOffered` | ml/evaluation/recourse.py:189-214 | every pathway is a candidate with a gain, with both values as shown |
| `Recourse.PlanReplays` | ml/evaluation/recourse.py:201-227 | replaying the pathways gives the projected score, impacts are positive and add up, no proper prefix reaches the target, the limit holds |
| `Recourse.SomePathIff` | ml/evaluation/recourse.py:180-219 | something is offered exactly when some candidate helps at its full and at its rounded target |
| `Recourse.GainWithoutPath` | ml/evaluation/recourse.py:180-219 | a score for which a borrower gains 100 points at the full target and is offered nothing |
| `Recourse.ActionableOnly` | ml/evaluation/recourse.py:48-63 | no protected feature is one of the seven |
| `Recourse.PlanActionable` | ml/evaluation/recourse.py:94-227 | distinct unprotected features, each target strictly above the current value and within its cap after rounding |
| `ScoringUtils.BandOnBothScales` | services/core/shared/scoring_utils.py:47-68 | both normalised numbers tell the same band |
| `ScoringUtils.NormalizeAgain` | services/core/shared/scoring_utils.py:47-68 | normalising a normalised score changes neither number nor band |
| `ScoringUtils.MonotoneOnEachScale` | services/core/shared/scoring_utils.py:47-56 | monotone on each scale |
| `ScoringUtils.ScalesAgree` | services/core/shared/scoring_utils.py:47-56 | both numbers stay within rounding of the raw one and of each other, six points to a percent from 300 on |
| `ScoringUtils.AcrossHundredIff` | services/core/shared/scoring_utils.py:47-56 | across 100 the order is kept exactly when the percentage rounds to nothing or its image is at most the other number rounded |
| `ScoringUtils.RawBandAgreesIff` | services/core/scoring/service.py:260-270 | when the band of the raw number is the normalised one |
| `ScoringUtils.IntervalBrackets` | services/core/shared/scoring_utils.py:70-101 | the confidence interval always holds the score |
| `ScoringUtils.IntervalDefault` | services/core/shared/scoring_utils.py:70-101 | without given bounds the interval is 5 percent or 30 points to each side, cut off at the ends of the scale |
| `ScoringUtils.IntervalBoundedIff` | services/core/shared/scoring_utils.py:70-101 | when the interval stays inside its range, on either scale |
| `Decisioning.CleanReasonIsReal` | services/core/decisioning/schemas.py:90-96 | a reason that survives the validator is non-empty and trimmed |
| `HandoffRecords.CleanReasonMeaning` | services/core/decisioning/schemas.py:90-96 | the reason kept is the text between its outermost characters that are not whitespace, none when there is none |
| `Decisioning.StepKeeps` | services/core/handoff/service.py:64-262 | every scoring, decision, submission and callback keeps the invariant and forgets nothing |
| `Decisioning.RunKeeps` | services/core/decisioning/service.py:184-247 | so does every run |
| `HandoffTheorems.Reachable` | services/core/decisioning/service.py:52-79 | one application per score and partner, each with a logged approval; a non-empty reason exactly where the officer disagreed with the advice for the normalised score |
| `HandoffTheorems.LogAppendOnly` | services/core/decisioning/service.py:8-9 | log rows are never changed or removed |
| `HandoffTheorems.ResubmitReturnsSame` | services/core/handoff/service.py:64-86 | resubmitting at any later time returns the first application and changes nothing |
| `HandoffRecords.CallbackStores` | services/core/handoff/service.py:244-262 | a callback writes the partner's decision, date, amount and non-empty reason into its row and nothing anywhere else; an unknown application is refused |
| `HandoffRecords.LastAnswerShows` | services/core/handoff/service.py:244-262 | at the end of any run an application shows its partner's last answer, if nobody has decided on its score since |
| `HandoffRecords.RecordIff` | services/core/decisioning/service.py:184-204 | a decision is taken exactly on a known score with a reason exactly when it goes against the advice, and a refusal changes nothing |
| `HandoffRecords.DecisionStores` | services/core/decisioning/service.py:206-236 | the log row holds what was decided and what was advised, and the decision reaches the score's first application and no other |
| `HandoffRecords.SubmitIff` | services/core/handoff/service.py:64-112 | the first submission of a score to a partner goes out exactly when the score is known and its newest decision is an approval |
| `HandoffRecords.SubmissionStores` | services/core/handoff/service.py:128-223 | one new row and one new package, both with the newest decision, the row with what was asked for and no approved amount |
| `HandoffTheorems.ShowsNewestIff` | services/core/decisioning/service.py:206-236 | until a callback an application shows the newest decision exactly when it is the score's first or the decision is an approval |
| `HandoffTheorems.SecondPartnerLags` | services/core/decisioning/service.py:206-236 | a run in which a rejection reaches the first partner's row and not the second's |
| `HandoffTheorems.HeaderAgreesIff` | services/core/handoff/service.py:140-141 | when the recommendation read off the raw score is the logged one |
| `HandoffTheorems.SentHeaderAgreesIff` | services/core/handoff/service.py:140-212 | of every package ever sent, when its header contradicts its decision block |
| `HandoffServices.DecisioningService.GetLatestDecision` | services/core/decisioning/service.py:257-265 | the newest log row of the score |
| `HandoffRecords.LatestIs` | services/core/decisioning/service.py:257-265 | a log row with none of its score after it is the one found |
| `HandoffServices.DecisioningService.RecordDecision` | services/core/decisioning/service.py:184-247 | refines the recording step: refusals leave no trace, success appends one row and mirrors it |
| `HandoffServices.HandoffService.FindExisting` | services/core/handoff/service.py:64-73 | the first application of the score and partner |
| `HandoffServices.HandoffService.SubmitApplication` | services/core/handoff/service.py:75-242 | refines the submission step with each of its refusals |
| `HandoffServices.HandoffService.ProcessDecisionWebhook` | services/core/handoff/service.py:244-270 | refines the callback step that `CallbackStores` describes field by field; log untouched |

## Left out

- MinimalPdf: how a viewer draws non-ASCII bytes with a standard Helvetica font, since the file declares no encoding for them.
- ReadPdfOfRender: the reader refuses constructs the writer never emits, such as octal escapes and nested parentheses.
- MinimalPdf: what a viewer makes of a file with offsets beyond ten digits; `ReadPdfOfRender` says the reader refuses it.
- CreateConsent: SHA-256 itself; the hash is an arbitrary function, injective only where a theorem requires it, with genesis and record payloads as different constructors.
- CreateConsent: random row ids and concurrent transactions; ids are row positions and events are serial.
- VerifyConsent: re-hashes the one record it is given, as the source does; it does not walk the chain.
- PurgeExpiredConsentData: the borrower fields other than name, phone and reference, and the order in which rows come back.
- ConsentService: the detail texts of audit rows, and listing queries.
- PredictLogOdds: the logistic function after the log-odds, the isotonic calibrator, and the array version of the same sum.
- ComputeShapValues: parsing of texts into numbers and grades, which is a parameter.
- FitFeatureLoop: `np.percentile` and `np.median`, which are arbitrary parameters, and fitting or transforming a whole frame column by column.
- TransformColumn: NaN and infinities inside a numeric column other than as missing values.
- CalculateCsi: the blanket exception handler that skips a failing column; the coerced columns are given.
- KsOfRescaled: the scores' own computation; a sort is any permutation that orders them.
- NewestPeriod: which of several rows computed at the same instant the database returns first; the model takes the last inserted.
- Evaluate: the manifest file, its hash, and the SQL that counts audit groups; `BuildLog` starts from the counts.
- GenerateRecourse: the guidance texts, and feature values that are neither numbers, flags nor missing; actions are values, so sharing of one action object between two lists is not modelled.
- Accumulate: the scorecard behind the score, which is an arbitrary function of the features.
- SubmitApplication: encryption, signing, the HTTP exchange with its simulated fallback, and the borrower fields of the payload.
- RecordDecision: length limits on request texts, model and feature version columns; a score's first application is the first inserted.
- Dispatch: the HTTP response and its headers; a client and its exemption are inputs.
- Floating-point rounding and overflow everywhere.
- The other PDF backends and text extraction from HTML, routers, connectors, dashboards, model training and the web client: plumbing or library calls.
- Reason-code ranking, the model registry, the grievance workflow and feature allow-lists: small tables that would only add easy members.
