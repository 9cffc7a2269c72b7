# Verified model of the lyric timing engine

This project models, in Dafny, how the karaoke service times, repairs, merges and publishes song lyrics, and proves
what those steps promise. It covers five areas.

- **Alignment tables.** Edit distance and alignment of word lists, the offline evaluator's count of optimal alignments,
  and the longest-common-subsequence pairing used by the offset estimate and the quality audit. Each table loop, each
  two-row loop and each walk back is tied to a statement over *all* edit scripts or *all* matchings.
- **LRC timing transformations.** Splitting over-long segments, the silence repair of aligned lines, merging word tags
  into curated lines, and shifting curated timing by an estimated offset.
- **Retry scheduler.** Evidence gates for decoded words, the planning, merging and ordering of audio windows, and a run
  over a queue that grows while it is read, under limits of calls and counted seconds.
- **Merging observations.** Composing several decodes of the same song, merging a pasted reference with a transcript,
  merging voiced regions, and applying proposed word edits.
- **Publication.** The review validator against the player's parser, the review compare-and-swap with rollback and
  uncertain commit, and the progress hub.

Each file holds one module of the same name. Code that loops over mutable state is a method with a loop, tied by its
`ensures` to a specification function or to the property itself; the properties of those functions are lemmas.
`dafny verify dfyconfig.toml` checks everything.

## Conventions

- Times are whole centiseconds in the LRC transformations, whole milliseconds in the validator and the player's parser,
  half centiseconds for estimated offsets (the median of an even list), and reals for decoded words and audio windows.
  Rounding of a half centisecond is an arbitrary function that returns a nearest value.
- A body is the list of its lines. In the validator, the parser and the word edits a line is a sequence of characters and
  the tag patterns are matched character by character; elsewhere a line is what the tag patterns make of it: line tag,
  word tags, and the text between them.
- Comparison keys (case folding, Unicode normalisation, tokens of a text) are data or an arbitrary function.
- A crop decode is an arbitrary result or failure, and so is the wall clock.
- Every lemma switches Dafny's automatic induction off: an inductive proof is one whose body says so.

## What the proofs brought out

The model follows the code in each of these cases.

- The repair's documentation (src/karaoke/worker/lyrics.py:351) speaks of `max(3 s, 4 x median)`; the code uses
  `max(2 s, 3 x median)`. `SilenceRepair.Threshold` is the code's.
- The splicer's documentation promises the curated text byte for byte once tags are stripped. The code adds one
  separating space before the end tag unless the line ends in a space or tab (`WordTagMerge.SplicedLinePreserves`).
- A retry window can have negative length, when an anchor lies behind the known end of the audio
  (`RetryScheduler.WindowBehindTheEnd`, with the transcript that gives the anchor). It has positive length exactly when
  the same window, planned without a known end, starts before that end (`RetryPlan.WindowCovers`).
- The minute of audio a run may decode is a limit on the code's counter, which such a window lowers. The counter is the
  audio decoded exactly when no primary the run can afford ends before it starts, which the planned queue and the clock
  tell without any decode (`RetryBudget.CounterIsAudioExactly`). Then the minute holds; so it does if no planned window
  ends before it starts (`RetryRun.ForwardWindows`), or if the anchors start inside the audio. In
  `RetryOverspend.MoreThanAMinute` the counter ends at -721.5 s with 76 s decoded. Two equal windows of negative length do
  not join, so one window can be decoded twice (`RetryOverspend.SameWindowTwice`); with anchors inside the audio none is
  (`RetryRun.RetryProblemLines`).
- Shifting by the estimated offset never asks for a second shift, clamped tags or not. A whole offset is gone afterwards
  exactly when the number of pairs is odd or at most half of the pairs are held back from the upper middle difference; of
  an odd half centisecond at most half a centisecond is left exactly when every pair from the upper middle on has its
  aligned line far enough from zero (`OffsetShift.ShiftSettles`). `OffsetShift.ClampedShiftLeavesOffset` and
  `OffsetShift.ClampedOddShiftLeavesOffset` are bodies where a clamped tag does leave an offset. The text of a line stays
  exactly when no line tag hidden in it moves (`OffsetShift.TextUnmoved`); `OffsetShift.HiddenTagLosesPair` is a body
  where one does, and the pair is lost.
- Hearing a first decode twice gives the same words exactly unless it has more than 2000 and at most 4000 words, where
  the second copy is passed through unmerged (`AsrComposition.FirstSegmentTwice`).
- Covered spans contain every line of a time-ordered list. In any list, a line is contained exactly when the span it ends
  up in on being read starts no later than it, or an earlier span holds it already (`ManualReference.CoveredExactly`);
  `ManualReference.UnsortedLineIsUncovered` is a pair of lines that fails it. A following line at time zero counts as no
  following line.
- In the forward anchoring pass the third alternative of the guard is always true, since no later line has moved yet;
  the last empty-target check of the retry planner can never fire (`RetryPlan.TrimmedTarget`).
- The share of a line covered by voiced regions is at most one (`VoicedRegions.VoicedOverlap`) because the regions are
  merged first: unmerged ones can count a moment twice (`VoicedRegions.OverlappingRegionsCountTwice`).
- Word edits are numbered by one cut of the text and applied by another. The two cuts number the words alike exactly when
  every chunk between tags and spaces holds one word with a comparison key if the chunk itself has a key, and none
  otherwise (`LineCutting.NumberedAlikeIffEven`); so they do on every text whose only opening brackets start tags. On
  `la[x2] foo` they do not, and a correction of `foo` overwrites `x2]` (`EditApplication.BracketMakesCorrectionMiss`).
- Once there is any correction, every line that is not metadata has its spacing tidied, corrected or not; this keeps the
  words and changes exactly the lines with double blanks or trailing space (`EditApplication.TidyIsSame`).

## Model

| member | source | states |
|---|---|---|
| EditScripts.CostAtLeastDistance | src/karaoke/textnorm.py:97-111 | No edit script between two prefixes is cheaper than the table recurrence. |
| EditScripts.BacktraceCost | src/karaoke/textnorm.py:159-175 | The walk back is a script and costs exactly the distance. |
| EditScripts.DistanceIsLeastCost | src/karaoke/textnorm.py:97-111 | A script is optimal if and only if it costs the distance. |
| EditScripts.BacktraceIsPreferred | src/karaoke/textnorm.py:159-175 | Among all optimal scripts the walk back picks, from the end, a diagonal before a deletion before an insertion. |
| EditScripts.ScriptConsumesInOrder | src/karaoke/textnorm.py:135-175 | A script is exactly a list of true operations that consumes each index of both sides once, in order. |
| Textnorm.LevenshteinTwoRow | src/karaoke/textnorm.py:97-111 | The two-row loop returns the least cost of any edit script. |
| Textnorm.DistanceTable | src/karaoke/textnorm.py:144-158 | Every cell of the full table holds the distance of its two prefixes. |
| Textnorm.Align | src/karaoke/textnorm.py:135-175 | The alignment is optimal, costs what the two-row distance says, uses each index once in order, and is the preferred one. |
| Textnorm.ZeroIffEqual | src/karaoke/textnorm.py:97-111 | Distance zero exactly on equal prefixes. |
| Textnorm.Symmetric | src/karaoke/textnorm.py:97-111 | The distance is symmetric. |
| Textnorm.Triangle | src/karaoke/textnorm.py:97-111 | The distance obeys the triangle inequality. |
| Textnorm.LevenshteinIsMetric | src/karaoke/textnorm.py:97-111 | The three metric laws together, on whole sequences. |
| Evaluator.OptimalScriptsAreOptimal | scripts/evaluate_lyrics.py:74-120 | The counted set holds exactly the minimum-cost scripts. |
| Evaluator.OptimalScriptsCount | scripts/evaluate_lyrics.py:83-100 | The three ways into a cell are disjoint, so their numbers of optimal scripts add up. |
| Evaluator.BorderCount | scripts/evaluate_lyrics.py:77-82 | Along the borders there is exactly one script. |
| Evaluator.Tables | scripts/evaluate_lyrics.py:76-100 | Each ways cell is the true number of optimal scripts capped at two, next to the true distance. |
| Evaluator.WalkBack | scripts/evaluate_lyrics.py:101-120 | The walk over the tables collects the matched pairs and error counts of the preferred optimal script. |
| Evaluator.Align | scripts/evaluate_lyrics.py:74-120 | Ambiguous if and only if two different optimal scripts exist; otherwise pairs and counts are those of the only one. |
| Evaluator.AmbiguityIsNonUniqueness | scripts/evaluate_lyrics.py:74-120 | A count above one means two different optimal scripts, and a count of one that every optimal script is the walk back. |
| Evaluator.CountsAddUp | scripts/evaluate_lyrics.py:101-120 | Matches and errors make up both word counts, and the errors are the cost. |
| Agreement.MatchingAtMostLcs | src/karaoke/worker/lyrics.py:755-783 | No one-to-one in-order matching of equal tokens is larger than the table value. |
| Agreement.TraceIsMatching | src/karaoke/worker/lyrics.py:755-783 | Following the directions gives such a matching of exactly that size. |
| Agreement.LcsIsLongest | src/karaoke/worker/lyrics.py:755-783 | The table value is the size of the largest matching. |
| Agreement.Directions | src/karaoke/worker/lyrics.py:755-770 | The flat direction table is filled with the right direction in every cell. |
| Agreement.LcsPairs | src/karaoke/worker/lyrics.py:755-783 | The returned pairs are strictly increasing matches, as many as any matching has. |
| Agreement.BoundedPairs | src/karaoke/worker/lyrics_quality.py:40-71 | The same matching, refused exactly when a list is over the limit. |
| Agreement.AgreementCount | src/karaoke/worker/lyrics.py:876-890 | The rolling rows return the size of the largest matching, hence the number of pairs of the direction table. |
| Agreement.LongestSizeIsUnique | src/karaoke/worker/lyrics.py:755-783 | Any largest matching has as many pairs as the walk back. |
| WordGroups.SplitStops | src/karaoke/worker/lyrics.py:261-288 | A group is left alone exactly when it is short enough or has no wide pause. |
| WordGroups.SplitIsSound | src/karaoke/worker/lyrics.py:261-288 | Splitting keeps every word in order, makes no empty group, and cuts only and all the pauses it must. |
| WordGroups.CutStep | src/karaoke/worker/lyrics.py:284-287 | Cutting any one group at its first widest pause changes neither the words nor the final result. |
| WordGroups.FindWidest | src/karaoke/worker/lyrics.py:261-288 | One pass finds the widest pause of all over-long groups, first on ties, or shows that none is left. |
| WordGroups.SplitWordGroups | src/karaoke/worker/lyrics.py:261-288 | The global greedy loop ends and equals the recursion that splits each group on its own. |
| SilenceRepair.StretchedLineStart | src/karaoke/worker/lyrics.py:427-441 | Fires exactly on two leading over-long gaps and names the start after the last of them. |
| SilenceRepair.GapsAreAt | src/karaoke/worker/lyrics.py:376-398 | The gaps learnt from are exactly the positive distances between neighbouring starts, in order. |
| SilenceRepair.MedianIsReference | src/karaoke/worker/lyrics.py:396-398 | The reference gap is the middle one, by rank, of all gaps but the largest, and at least the least gap; a typical word's if there is one gap only. |
| SilenceRepair.MedianUnmoved | src/karaoke/worker/lyrics.py:396-401 | Replacing a gap above the reference gap by the reference gap leaves the reference gap alone. |
| SilenceRepair.RepairedGaps | src/karaoke/worker/lyrics.py:388-401 | The repaired starts teach the same reference gap. |
| SilenceRepair.RepairedNotStretched | src/karaoke/worker/lyrics.py:381-401 | A repair never makes a line look stretched. |
| SilenceRepair.RepairIsIdempotent | src/karaoke/worker/lyrics.py:351-424 | A second repair of any parsed line changes nothing. |
| SilenceRepair.RepairShrinks | src/karaoke/worker/lyrics.py:376-420 | A repair only shrinks the sung interval, keeps text, inner starts and order, and leaves no gap above the threshold at either end. |
| SilenceRepair.RepairMends | src/karaoke/worker/lyrics.py:376-420 | What a repair changes, told from the times alone: the start of a stretched line, a first or last gap above the threshold cut to the reference gap, and nothing else. |
| SilenceRepair.StretchedKeepsWords | src/karaoke/worker/lyrics.py:381-387 | A stretched line keeps its words and starts at one of its own word starts. |
| SilenceRepair.RepairAlignedLrc | src/karaoke/worker/lyrics.py:351-424 | The body is repaired line by line, each as described, and every output line is a fixed point. |
| Text.SplitJoined | src/karaoke/worker/lyrics.py:385-386 | Joining words by spaces and splitting again gives the words back. |
| WordTagMerge.ParseAlignerLines | src/karaoke/worker/lyrics.py:462-499 | Exactly the timed lines with text are kept, in order, each with its key, its end and its word times as read; all of it usable. |
| WordTagMerge.ParsedAligned | src/karaoke/worker/lyrics.py:462-499 | Kept word times come with a sung end, never decrease, and never pass the end. |
| WordTagMerge.CursorFollows | src/karaoke/worker/lyrics.py:596-641 | With an embedding the cursor never runs past it and no aligner line is dropped. |
| WordTagMerge.TakenInOrder | src/karaoke/worker/lyrics.py:596-641 | Aligner lines are taken in order, each at most once, by fitting curated lines. |
| WordTagMerge.AllTakenIffEmbeds | src/karaoke/worker/lyrics.py:596-641 | Every aligner line is taken if and only if the aligner's lines embed in order in the curated lines. |
| WordTagMerge.MatchedIsCompleteIffEmbeds | src/karaoke/worker/lyrics.py:596-641 | On single-tag lines the matched count is complete exactly when such an embedding exists. |
| WordTagMerge.SpliceKeepsText | src/karaoke/worker/lyrics.py:502-529 | Splicing keeps the text, inserts the given times in order, one directly before each word. |
| WordTagMerge.SplicedLinePreserves | src/karaoke/worker/lyrics.py:502-529 | A merged line is the curated bytes with nondecreasing times inserted, and at most one extra space. |
| WordTagMerge.SplicedIsTimed | src/karaoke/worker/lyrics.py:502-529 | A merged line carries exactly the given times, each directly before the word of the same number, the last one at the end. |
| WordTagMerge.MeetsInOrder | src/karaoke/worker/lyrics.py:596-641 | Of two curated lines given an aligner line, the later one is given a later one. |
| WordTagMerge.RenderedIsMerged | src/karaoke/worker/lyrics.py:596-641 | A line is merged if and only if it has a single tag, the aligner line at its cursor fits, and that has as many word times as it has words; then it gets these and that end, each before its own word, and otherwise it is verbatim. Counts and flag are those of such lines. |
| WordTagMerge.SpliceWordTags | src/karaoke/worker/lyrics.py:502-529 | The loop over the words builds that line. |
| WordTagMerge.MergeWordTags | src/karaoke/worker/lyrics.py:532-657 | The output is the curated body with exactly those lines merged, by a walk over exactly the timed aligner lines with text; counts are those of that walk; without a merge the body is verbatim. |
| WordTagMerge.MergePreservesText | src/karaoke/worker/lyrics.py:532-657 | Each output line is the curated line verbatim, or with one time per word and an end tag inserted. |
| Ranks.SortedRanks | src/karaoke/worker/lyrics.py:803 | The element at each position of a sorted list has at most that many smaller and more than that many not larger. |
| OffsetShift.EstimateOffset | src/karaoke/worker/lyrics.py:786-810 | The estimate rests on a largest in-order pairing of at least two equal texts; offset and spread are the middle and the quarter distance of its differences. |
| OffsetShift.SummaryRanks | src/karaoke/worker/lyrics.py:803-810 | The offset is the mean of the middle differences, one or two, and the spread the distance of the quarter positions, told by counting. |
| OffsetShift.ReliableIff | src/karaoke/worker/lyrics.py:813-822 | The gate: two seconds of offset either way, a second of spread at most, ten pairs and four fifths of the curated lines. |
| OffsetShift.ShiftLrc | src/karaoke/worker/lyrics.py:825-842 | Each tag time moves by the offset and stops at zero; everything else, metadata lines included, stays. |
| OffsetShift.TextUnmoved | src/karaoke/worker/lyrics.py:825-842 | A text is unchanged by a shift if and only if every line tag hidden in it stays. |
| OffsetShift.CuratedShifts | src/karaoke/worker/lyrics.py:739-752 | Shifting a body shifts its curated entries and nothing else about them. |
| OffsetShift.PairingUnmoved | src/karaoke/worker/lyrics.py:800-802 | Texts pair up the same way however the tags moved or clamped. |
| OffsetShift.SortMoves | src/karaoke/worker/lyrics.py:803 | Moving every element, some held back by the clamp, moves every order statistic in the same way. |
| OffsetShift.SummaryMoves | src/karaoke/worker/lyrics.py:806-810 | Median and interquartile range move accordingly, and the moved median lies within the moved spread of zero. |
| OffsetShift.ShiftSettles | src/karaoke/worker/lyrics.py:786-842 | After shifting by its own estimate, clamped tags or not, a body has the same matched count and asks for no second shift; the offset left is at most the spread. A whole offset vanishes if and only if the pairs are odd in number or at most half of them are held back; of an odd half centisecond at most half a centisecond is left if and only if the pairs from the upper middle on are far enough from zero. Unclamped, offset and spread are exact up to a half centisecond. |
| OffsetShift.HeldBackCounts | src/karaoke/worker/lyrics.py:803-842 | The pairs held back, told from the body before the shift, are exactly those whose difference stays below the old upper middle moved by the shift. |
| OffsetShift.OddSettles | src/karaoke/worker/lyrics.py:803-842 | An odd offset leaves at most half a centisecond above zero, and as little below zero if and only if every aligned line paired from the upper middle on lies at least as far from zero as the middles from the offset, one centisecond less if the lower middle is rounded down. |
| OffsetShift.ClampedShiftLeavesOffset | src/karaoke/worker/lyrics.py:825-842 | A body where a tag stops at zero and the next estimate is not zero. |
| OffsetShift.ClampedOddShiftLeavesOffset | src/karaoke/worker/lyrics.py:825-842 | A body with an odd estimate where a tag stops at zero and at least 2.25 s of offset are left. |
| OffsetShift.HiddenTagLosesPair | src/karaoke/worker/lyrics.py:739-752 | A body where a line tag hidden in the text moves with the shift, and the line no longer pairs up. |
| AsrEvidence.PlausibleWords | docker/runpod/handler.py:838-858 | The gate passes exactly the nonempty runs whose words fit the bounds, follow one another and are confident enough. |
| AsrEvidence.PlausibleSpan | docker/runpod/handler.py:838-858 | A passing run takes positive time inside its bounds, overlaps notwithstanding. |
| AsrEvidence.ConfidenceIsTheOnlyFault | docker/runpod/handler.py:995-1002 | Such a run has sound times, and its only fault is a word below 0.3 or a mean below 0.65. |
| RetryPlan.LeftAnchor | docker/runpod/handler.py:916 | The nearest anchored row before, or none exists. |
| RetryPlan.RightAnchor | docker/runpod/handler.py:917 | The nearest anchored row after, or none exists. |
| RetryPlan.LocateTarget | docker/runpod/handler.py:929-933 | The first near run inside the bounds locates the target, else the row's own times. |
| RetryPlan.TrimmedTarget | docker/runpod/handler.py:938-945 | The trimmed target is nonempty, inside the bounds, and no longer than its words allow. |
| RetryPlan.TrimmedExactly | docker/runpod/handler.py:938-945 | The target runs from the located start or the lower bound to the located end, at least half a second and at most what its words allow, and never past the upper bound. |
| RetryPlan.WindowCovers | docker/runpod/handler.py:946-955 | Two seconds of context, whole near anchor phrases, six seconds unless the audio ends; positive length if and only if the same window without a known end starts before the end. |
| RetryPlan.WindowExactly | docker/runpod/handler.py:946-955 | Two seconds of context on each side, farther for a near anchor phrase, stretched alike on both sides to six seconds if shorter, cut at zero and at the end of the audio. |
| RetryPlan.InsideMeansPositive | docker/runpod/handler.py:946-955 | With the right bound inside the audio the window has positive length. |
| RetryPlan.PlanIsBounded | docker/runpod/handler.py:906-961 | A proposal rests on an independent bound, surrounds a target between the bounds, and is at most 25 s long. |
| RetryPlan.PlanExactly | docker/runpod/handler.py:906-961 | When a row gets a plan, and all of that plan, told from the nearest anchored rows and the first near run. |
| RetryPlan.RetryWindow | docker/runpod/handler.py:906-961 | The planner returns the plan so described, refusals included. |
| RetryPlan.LeftContext | docker/runpod/handler.py:979-983 | The latest start among the phrases that reach the window from the left. |
| RetryPlan.RightContext | docker/runpod/handler.py:980-985 | The earliest end among the phrases that reach the window from the right. |
| RetryPlan.AlternateIsWider | docker/runpod/handler.py:964-992 | An alternate contains the window and its neighbouring phrases, differs from it, stays in the audio and under 25 s. |
| RetryPlan.AlternateExactly | docker/runpod/handler.py:964-992 | When a window gets an alternate, and its two ends. |
| RetryScheduler.Accept | docker/runpod/handler.py:1039-1050 | A run goes in exactly when its token count matches and it conflicts with no recovered line; order is kept. |
| RetryScheduler.ConflictIff | docker/runpod/handler.py:1042-1047 | A row not recovered yet conflicts if and only if recovering it would leave the recovered lines out of order. |
| RetryScheduler.AcceptKeepsOrder | docker/runpod/handler.py:1039-1050 | Recovered lines stay disjoint in time and in text order. |
| RetryScheduler.AcceptKeeps | docker/runpod/handler.py:1039-1050 | An accepted line keeps the order and is decoded evidence for exactly its words. |
| RetryScheduler.CorroboratedAnchor | docker/runpod/handler.py:861-870 | The anchor is the first plausible run within two seconds at both ends, for kept rows without problems only. |
| RetryScheduler.AnchorIsRight | docker/runpod/handler.py:861-870 | A row is anchored if and only if it is kept, free of problems and corroborated, and then at its first corroborating run. |
| RetryScheduler.AnchorsAreProper | docker/runpod/handler.py:1023-1024 | All anchors have nonnegative start and positive length, whatever the transcript. |
| RetryScheduler.InsideWordsInsideAnchors | docker/runpod/handler.py:1023-1024 | Anchors start inside the audio when every decoded word does. |
| RetryScheduler.WindowBehindTheEnd | docker/runpod/handler.py:906-961 | Rows and a transcript for which the anchors, as computed, give a window of negative length. |
| RetryScheduler.SettledIsSound | docker/runpod/handler.py:1054-1077 | A row settled by the full transcript lies between its bounds, keeps the recovered lines in order, and changes no other row. |
| RetryScheduler.TryRun | docker/runpod/handler.py:1064-1068 | One run is accepted exactly when it passes every gate. |
| RetryScheduler.SearchTranscript | docker/runpod/handler.py:1064-1077 | The first run that passes every gate recovers the row. |
| RetryScheduler.FirstPassIsSound | docker/runpod/handler.py:1054-1079 | After the first pass every problem row is either recovered, between its nearest anchored rows, or pending, and the anchors are sound. |
| RetryScheduler.FirstPassPasses | docker/runpod/handler.py:1054-1079 | Row by row: a problem row between two anchors is recovered by its first acceptable run if it has one and waits otherwise, and no other row changes anything. |
| RetryScheduler.AddBetween | docker/runpod/handler.py:1054-1079 | A newly settled row, an anchor from then on, leaves every earlier recovered row between its nearest anchored rows. |
| RetryScheduler.RecoverFromTranscript | docker/runpod/handler.py:1054-1079 | The loop passes the rows in that way, each settled row serving as an anchor for later rows. |
| RetryQueue.PlanWindows | docker/runpod/handler.py:1083-1090 | One window for each pending row with a proposal, in row order, exactly as planned, and its bounds on record. |
| RetryQueue.PlannedForIsSound | docker/runpod/handler.py:1083-1090 | Every planned window can be decoded and serves a pending problem row, whose bounds are those of its nearest anchored rows. |
| RetryQueue.MergedIsSound | docker/runpod/handler.py:1091-1099 | Merging sorted windows covers every window with its rows and neither loses nor doubles a row; windows of positive length give strictly increasing starts. |
| RetryQueue.MergedIsExhausted | docker/runpod/handler.py:1091-1099 | Neighbouring groups start after one another has ended, or would together exceed 25 s: nothing that should be merged is left apart. |
| RetryQueue.MergedIsFilled | docker/runpod/handler.py:1091-1099 | Every moment of a group lies in one of its windows, and a group ends where its latest window ends: nothing apart is merged. |
| RetryQueue.MergeWindows | docker/runpod/handler.py:1091-1099 | The loop gives groups with all of these properties. |
| RetryQueue.PrioritisedInOrder | docker/runpod/handler.py:1101-1108 | The queue holds the same groups, each as often, by urgency, score and start; no window twice if no two groups start together. |
| RetryQueue.KeyExactly | docker/runpod/handler.py:1101-1108 | A group is urgent if and only if one of its rows has an urgent problem; its score is the lowest of its rows. |
| RetryQueue.SearchedIsSound | docker/runpod/handler.py:1166-1180 | A line recovered from a crop lies between its bounds in song time and keeps the order. |
| RetryQueue.TryCropRun | docker/runpod/handler.py:1168-1180 | One crop run is accepted exactly when it passes every gate, and is reported unsure exactly when only confidence failed. |
| RetryQueue.SearchCrop | docker/runpod/handler.py:1166-1183 | The first passing run recovers the row; otherwise unsure says whether some run failed for confidence alone. |
| RetryQueue.SearchGroup | docker/runpod/handler.py:1162-1183 | All rows of a group are searched in one decode, in order, each still pending one recovered by the first run that passes. |
| RetryQueue.GroupSearchIsSound | docker/runpod/handler.py:1162-1183 | A group search keeps the order, loses no recovered line, and places new ones within their bounds. |
| RetryQueue.GroupSearchIsSearched | docker/runpod/handler.py:1162-1183 | Row by row what a decode changes: the first passing run recovers the row, a decode whose only passing fault is confidence makes it unsure, and nothing else happens. |
| RetryBudget.BudgetKept | docker/runpod/handler.py:1110-1132 | Queue-ordered decodes under the limits: at most 12 crops, at most 60 s on the code's counter, 25 s each, inside the audio, primaries first, one alternate per primary; no window twice if no two primaries share one. |
| RetryBudget.CounterIsAudio | docker/runpod/handler.py:1118-1132 | The counter never exceeds the audio decoded, and equals it if and only if no crop ends before it starts. |
| RetryBudget.CounterIsAudioExactly | docker/runpod/handler.py:1110-1203 | The counter of a run is the audio it decodes if and only if no primary it can afford ends before it starts; every crop has audio if and only if each of those has. |
| RetryBudget.CropIsAfforded | docker/runpod/handler.py:1193-1203 | Every crop is a primary that the run affords whatever its decodes return, or an alternate that contains one. |
| RetryRun.AddedKeepsQueue | docker/runpod/handler.py:1193-1203 | A primary adds at most one alternate, always new, legal and containing the primary's window; an alternate adds none. |
| RetryRun.AppendAlternate | docker/runpod/handler.py:1193-1203 | The queue grows by exactly the alternate described, and the set of planned windows with it. |
| RetryRun.HandleKeeps | docker/runpod/handler.py:1110-1203 | Every queue entry keeps the run's invariant, whatever the decode returns. |
| RetryRun.HandleIsHandled | docker/runpod/handler.py:1110-1203 | When an entry is decoded and when passed over, what the decode recovers, what is counted, and when its alternate joins the queue. |
| RetryRun.RunQueue | docker/runpod/handler.py:1108-1203 | The loop over the growing queue ends, keeps the limits and goes entry by entry through states so described. Unless an affordable primary ends before it starts, it decodes a minute of audio at most and passes an entry over only for want of budget or time; no window is decoded twice unless two primaries share one. |
| RetryRun.SurvivorsAreExact | docker/runpod/handler.py:1206-1217 | Exactly the kept and recovered rows reach the output, once each, in row order. |
| RetryRun.Render | docker/runpod/handler.py:1206-1217 | Lines and scores of equal length, recovered rows without a score. |
| RetryRun.QueueForIsSound | docker/runpod/handler.py:1091-1109 | Planning, sorting, merging and ordering give a legal queue by priority. |
| RetryRun.PlanQueue | docker/runpod/handler.py:1083-1109 | The method builds that queue from windows merged as far as they must be and no further, losing and doubling none. |
| RetryRun.ForwardWindows | docker/runpod/handler.py:1083-1109 | If no planned window ends before it starts, neither does a primary that the run can afford. |
| RetryRun.PlacedIsBetween | docker/runpod/handler.py:1052-1190 | Lines recovered in either phase lie between the nearest rows anchored after the first. |
| RetryRun.RetryProblemLines | docker/runpod/handler.py:1005-1217 | The whole run for every transcript: first pass, queue and output composed, within the limits of the code's counters, recovered lines genuine, in order and each between its nearest anchored rows, no kept line lost; the audio decoded is bounded by a minute unless an affordable primary ends before it starts. With anchors inside the audio, a minute at most, no empty crop and no window twice. |
| RetryOverspend.MoreThanAMinute | docker/runpod/handler.py:1005-1204 | Six rows, one decoded word and a known duration for which the run, every decode failing, ends with 76 s decoded and its counter at -721.5 s. |
| RetryOverspend.SameWindowTwice | docker/runpod/handler.py:1005-1204 | Two rows located alike behind the end of the audio, whose one window is queued and decoded twice. |
| VoicedRegions.Merge | docker/runpod/handler.py:541-548 | Merged regions contain every region, bridge only pauses under half a second, and leave none. |
| VoicedRegions.CoveredAtMost | docker/runpod/handler.py:554-560 | Separate regions never count a moment twice. |
| VoicedRegions.VoicedOverlap | docker/runpod/handler.py:554-560 | The share lies between zero and one, and is one exactly when a single region holds the line. |
| VoicedRegions.OverlappingRegionsCountTwice | docker/runpod/handler.py:554-560 | Two overlapping unmerged regions for which the share of a line is two. |
| AsrComposition.MatchesIncrease | src/karaoke/worker/lyrics_quality.py:172-186 | Later incoming words match later entries, with the same tokens in the same interval. |
| AsrComposition.MatchesAreBest | src/karaoke/worker/lyrics_quality.py:172-186 | A word is matched if and only if some later entry is eligible, and then to the one nearest in start, the first of equals. |
| AsrComposition.MatchWords | src/karaoke/worker/lyrics_quality.py:172-186 | The first loop finds those matches, one-to-one and increasing. |
| AsrComposition.ReconciledKeeps | src/karaoke/worker/lyrics_quality.py:187-200 | An earlier word keeps its tokens, and without an explicit alternate its times, and its confidence never rises. |
| AsrComposition.EveryWordAccounted | src/karaoke/worker/lyrics_quality.py:187-212 | Each incoming word is matched, added, or on record as a conflict. |
| AsrComposition.AdditionsAreRight | src/karaoke/worker/lyrics_quality.py:196-212 | A word is added if and only if it is unmatched and no earlier entry lies in its interval. |
| AsrComposition.ConflictsAreRight | src/karaoke/worker/lyrics_quality.py:198-212 | A conflict is recorded, once each, for exactly the other unmatched words, naming an entry of the interval nearest in start and the span of both. |
| AsrComposition.FoldIsObserved | src/karaoke/worker/lyrics_quality.py:150-219 | What one segment does to words and conflicts, told word by word: matched entries take the better reading and the rival, the rest is added or in conflict, all sorted by start. |
| AsrComposition.FoldKeeps | src/karaoke/worker/lyrics_quality.py:146-219 | A fold is sorted by start and adds to the earlier tokens exactly those of the additions. |
| AsrComposition.CompositionKeepsTokens | src/karaoke/worker/lyrics_quality.py:146-220 | Everything already heard is in the result of a whole composition. |
| AsrComposition.CompositionKeepsWords | src/karaoke/worker/lyrics_quality.py:146-220 | Over a whole composition without explicit alternates every earlier word stays, with its text and times, and its confidence never rises. |
| AsrComposition.CompositionIsSorted | src/karaoke/worker/lyrics_quality.py:213-220 | The result is sorted by start unless a segment is oversized. |
| AsrComposition.FirstSegmentTwice | src/karaoke/worker/lyrics_quality.py:146-220 | A first decode folded in twice gives the words of once, exactly unless it has between 2001 and 4000 words; never a conflict. |
| AsrComposition.FoldSegment | src/karaoke/worker/lyrics_quality.py:150-219 | One segment does exactly this, an oversized one being appended and an empty one dropped. |
| AsrComposition.ComposeAsr | src/karaoke/worker/lyrics_quality.py:138-220 | The loop passes through states each of which hears its segment in this way; the last one is the result, conflicts included. |
| ManualReference.StopIs | src/karaoke/worker/manual_reference.py:65-69 | Where a line stops: at a plausible end tag, else five seconds on or at the next line if that is sooner, at least half a second on. |
| ManualReference.SpansCover | src/karaoke/worker/manual_reference.py:59-73 | The spans contain every line of a time-ordered list. |
| ManualReference.SpansAreApart | src/karaoke/worker/manual_reference.py:59-73 | Spans of any list are in time order and at least eight seconds apart. |
| ManualReference.CoveredExactly | src/karaoke/worker/manual_reference.py:59-73 | A line of any list is contained if and only if the span it ends up in when read starts no later than it, or an earlier span holds it; later lines change nothing. |
| ManualReference.SpansAreTight | src/karaoke/worker/manual_reference.py:59-73 | Every span bound is the start or stop of a line. |
| ManualReference.CoveredSpans | src/karaoke/worker/manual_reference.py:59-73 | The loop that rewrites its last span computes those spans. |
| ManualReference.UnsortedLineIsUncovered | src/karaoke/worker/manual_reference.py:59-73 | An unsorted pair whose second line no span contains. |
| ManualReference.FinalIsMaximum | src/karaoke/worker/manual_reference.py:181-188 | A final time is the maximum over earlier lines of their time plus one centisecond per line since. |
| ManualReference.FinalIncreases | src/karaoke/worker/manual_reference.py:181-188 | Final times are strictly increasing. |
| ManualReference.Separate | src/karaoke/worker/manual_reference.py:181-188 | The loop gives the least strictly increasing times that are not earlier than the lines' own. |
| ManualReference.MergeReference | src/karaoke/worker/manual_reference.py:163-188 | Every pasted line and exactly the transcript lines that are speech or start more than a second away from every span, once each, by start, pasted ones first and otherwise as they came; times raised as little as makes them strictly increasing. |
| ManualReference.FirstHit | src/karaoke/worker/manual_reference.py:112-120 | The earliest heard wanted word in the interval. |
| ManualReference.HeardAt | src/karaoke/worker/manual_reference.py:112-120 | The earliest time at which a wanted word is heard in the interval, and an answer if and only if at least two and two fifths of the wanted words are heard there. |
| ManualReference.ForwardPass | src/karaoke/worker/manual_reference.py:122-126 | Each line lands where it is heard behind its new predecessor, times stay in order and only move earlier. |
| ManualReference.BackwardPass | src/karaoke/worker/manual_reference.py:127-132 | Each line lands where it is heard ahead of its new successor, times stay in order and only move later. |
| ManualReference.FollowedExactly | src/karaoke/worker/manual_reference.py:122-126 | Which lines the forward pass moves, and where to. |
| ManualReference.PrecededExactly | src/karaoke/worker/manual_reference.py:127-132 | Which lines the backward pass moves, and where to. |
| ManualReference.StillRising | src/karaoke/worker/manual_reference.py:122-132 | Moving one time between its neighbours keeps the order. |
| LrcTags.TagShape | src/karaoke/api/lyrics_review.py:25-26 | A tag is a bracket, a digit, digits, colons and dots, and the closing bracket. |
| LrcTags.StrictIsLoose | src/karaoke/api/routes.py:1031-1035 | What the validator's strict pattern accepts the player's loose pattern reads the same way. |
| LrcTags.ScansAgree | src/karaoke/api/routes.py:1091-1110 | When the strict scan leaves no opening bracket, both scans see the same pieces. |
| LrcTags.ScanAppend | src/karaoke/api/lyrics_review.py:102 | Trailing space is scanned as plain characters. |
| LrcWriting.ReadsTheWritten | src/karaoke/api/lyrics_review.py:25-49 | A tag is read at the front of a text if and only if one is written there from one or two digits of minutes, two of seconds and up to three behind a dot; its time is theirs, digit by digit. |
| LrcReview.ValidateLrc | src/karaoke/api/lyrics_review.py:52-103 | Accepts exactly the acceptable bodies and keeps their lines, otherwise names the first bad line and its fault. |
| LrcReview.TimingIsRight | src/karaoke/api/routes.py:1063-1088 | When a line keeps its word timing; then each word has its tag and text and lasts until the next tag, the last one until the sung end if there is one. |
| LrcReview.ParseLineShows | src/karaoke/api/routes.py:1098-1126 | One entry for each line tag of a line with text, at that time, with the text behind the speech marker and, unless it is speech, that timing. |
| LrcReview.ParseLrcWords | src/karaoke/api/routes.py:1051-1088 | The player's word timing of a line is that one. |
| LrcReview.ParseLrcLines | src/karaoke/api/routes.py:1091-1126 | All those entries of all lines by time, none lost or doubled, those of one moment in the order in which they were read, every known duration the distance to the next tag. |
| LrcAgreement.CleanHidesWordTags | src/karaoke/api/lyrics_review.py:69-75 | Accepted lyric text hides no word tag, the speech marker notwithstanding. |
| LrcAgreement.CleanHidesLineTags | src/karaoke/api/lyrics_review.py:69-75 | Nor does it hide the start of a line tag. |
| LrcAgreement.PatternsAgree | src/karaoke/api/routes.py:1102-1110 | The player reads an accepted line as the validator did: one line tag in front, the same word tags. |
| LrcAgreement.TimingSurvives | src/karaoke/api/routes.py:1063-1088 | Accepted word tags give word timing: each word with its own tag and text, lasting a positive time until the next tag. |
| LrcAgreement.AcceptedLineIsRendered | src/karaoke/api/routes.py:1091-1126 | An accepted line gives exactly one player line, at its time, with its text and word timing. |
| LrcAgreement.TrimmedLineIsJudgedAlike | src/karaoke/api/lyrics_review.py:102 | A line without its trailing space is judged alike. |
| LrcAgreement.StoredIsAcceptable | src/karaoke/api/lyrics_review.py:52-103 | The stored lines are acceptable again and stored unchanged. |
| LrcAgreement.ValidationIsIdempotent | src/karaoke/api/lyrics_review.py:52-103 | Validating what was stored accepts it and stores the same lines. |
| LrcAgreement.ParsesInOrder | src/karaoke/api/routes.py:1091-1126 | Stored lines parse one to one, at strictly increasing times. |
| LrcAgreement.AcceptedBodyIsRendered | src/karaoke/api/routes.py:1091-1126 | An accepted body is shown line for line, strictly increasing, no word timing lost. |
| LrcWriting.ScanOfWritten | src/karaoke/api/lyrics_review.py:69-80 | Tags and texts written one after the other are scanned back as written. |
| LrcWriting.AcceptedIffWritten | src/karaoke/api/lyrics_review.py:60-101 | A line is accepted if and only if it can be written as a start tag and tagged texts that are in order: bracket-free text, every tag but the last leading a word, times rising, inside the audio and at most two seconds before the start. |
| LrcWriting.WrittenIsPlayed | src/karaoke/api/routes.py:1051-1126 | Such a line is played once, at the start written, with one word for each text at the time written before it, lasting until the next tag. |
| ReviewFiles.DecimalInjective | src/karaoke/api/lyrics_review.py:39-45 | The decimal length field can be read back. |
| ReviewFiles.ContentInjective | src/karaoke/api/lyrics_review.py:39-45 | A content field can be read back whatever follows it. |
| ReviewFiles.RevisionInjective | src/karaoke/api/lyrics_review.py:39-45 | Two sets of files have the same revision if and only if they are equal, a missing file included. |
| ReviewFiles.ExportDirectory.ReplaceAll | src/karaoke/api/lyrics_review.py:227-246 | Either all four files are the candidate's, or after any failure all four are as before. |
| ReviewProtocol.NextInv | src/karaoke/api/lyrics_review.py:161-267 | Every step of every editor keeps the protocol's invariant. |
| ReviewProtocol.RunInv | src/karaoke/api/lyrics_review.py:130-267 | The invariant holds in every state of every run. |
| ReviewProtocol.PublishInv | src/karaoke/api/lyrics_review.py:247-262 | What is published is the whole candidate, over the version its author had loaded. |
| ReviewProtocol.FreeLockMeansCompleteVersion | src/karaoke/api/lyrics_review.py:153-267 | Whenever the row lock is free the four files are exactly the newest published version. |
| ReviewProtocol.NoReviewIsOverwritten | src/karaoke/api/lyrics_review.py:161-164 | Every version was published over exactly the version its author had loaded. |
| ReviewProtocol.HistoryOnlyGrows | src/karaoke/api/lyrics_review.py:153-267 | Published versions are never withdrawn, and committed rows never go back to an older one. |
| ReviewProtocol.ReconcileIsHarmless | src/karaoke/api/lyrics_review.py:130-150 | Reconciliation writes no files, and rows it commits describe its own files, still in place. |
| ReviewProtocol.OnlyTheHolderWrites | src/karaoke/api/lyrics_review.py:229-246 | Files change only under the changing editor's own lock. |
| ProgressHub.PushKeepsSuffix | src/karaoke/api/ws.py:247-256 | Eviction keeps a queue the latest contiguous stretch, at most 256 long, newest event last. |
| ProgressHub.QueueHoldsLatest | src/karaoke/api/ws.py:182-256 | The same over any run of arrivals and reads. |
| ProgressHub.UnreadQueueKeepsLast | src/karaoke/api/ws.py:247-256 | A reader that never reads loses exactly the oldest events beyond 256. |
| ProgressHub.Queue.Put | src/karaoke/api/ws.py:247-256 | A full queue loses its oldest event to the new one. |
| ProgressHub.Queue.Get | src/karaoke/api/ws.py:182-190 | Reading takes the oldest event. |
| ProgressHub.Hub.constructor | src/karaoke/api/ws.py:163-169 | An empty hub meets the invariant. |
| ProgressHub.Hub.Subscribe | src/karaoke/api/ws.py:182-190 | A fresh empty queue sits in exactly the named feed. |
| ProgressHub.Hub.Unsubscribe | src/karaoke/api/ws.py:192-201 | The queue leaves the named feed; nothing happens if it is not in it. |
| ProgressHub.Hub.Fanout | src/karaoke/api/ws.py:242-256 | Exactly the queues of the global feed and of the event's job receive it. |
| ProgressHub.Hub.SyncHeartbeatTask | src/karaoke/api/ws.py:258-272 | A job has a heartbeat task exactly when its latest stage is known and not terminal, and never two. |
| ProgressHub.Hub.Publish | src/karaoke/api/ws.py:218-229 | Caches, heartbeat tasks and deliveries after an event, the invariant kept. |
| ProgressHub.Hub.Beat | src/karaoke/api/ws.py:274-287 | One turn of a heartbeat loop caches the heartbeat, delivers it to exactly the queues of the global feed and of the job, changes no stage and keeps the invariant. |
| ProgressHub.Hub.Forget | src/karaoke/api/ws.py:209-216 | A deleted job loses its caches and its task; every other job keeps its own. |
| LineCutting.MetaIff | src/karaoke/worker/word_vote.py:25 | A line is metadata if and only if, stripped, it is a name of letters, a colon and a value without a closing bracket, between brackets. |
| LineCutting.CutJoins | src/karaoke/worker/word_vote.py:232-248 | The rewriter's pieces, put together, are the line. |
| LineCutting.PieceKind | src/karaoke/worker/word_vote.py:248-249 | A piece passes for a gap, by its own text, exactly when it was cut as a tag or as space. |
| LineCutting.SurfacesAreStretches | src/karaoke/worker/word_vote.py:74-87 | The words the tokenizer reads are the runs of the rewriter's pieces between two gaps, in order. |
| LineCutting.TokensAreSpoken | src/karaoke/worker/word_vote.py:84-86 | Token number `j` of a line is the text of its run number `j` with a key. |
| LineCutting.PairedIffEven | src/karaoke/worker/word_vote.py:248-251 | A line's words pair off with its tokens, each word inside its token's run, if and only if every run with a key holds one word and every other run none. |
| LineCutting.NumberedAlikeIffEven | src/karaoke/worker/word_vote.py:235-269 | Over a whole text both cuts count the same words and number each alike if and only if that holds of every run of every line. |
| LineCutting.BracketFreeTextIsNumberedAlike | src/karaoke/worker/word_vote.py:232 | They do, whatever the comparison keys, on every text without an opening bracket outside its tags. |
| LineCutting.BracketShiftsNumbers | src/karaoke/worker/word_vote.py:232-250 | On `la[x2] foo` the tokenizer reads two tokens and the rewriter three words. |
| EditApplication.TokenOfLine | src/karaoke/worker/word_vote.py:74-87 | Each line's tokens take consecutive numbers, in line order. |
| EditApplication.TokensAreOrdered | src/karaoke/worker/word_vote.py:74-87 | Token line numbers never decrease. |
| EditCorrections.FirstFit | src/karaoke/worker/llm_corrector.py:141-143 | The first place where the edit's words stand and no earlier correction touches them, or none. |
| EditCorrections.PlanIsSound | src/karaoke/worker/llm_corrector.py:123-150 | Each correction replaces exactly the words a usable edit named, on its line, and no two share a token. |
| EditCorrections.PlanIsMaximal | src/karaoke/worker/llm_corrector.py:141-150 | A usable edit is passed over only when every occurrence of its words on its line touches a correction that was made. |
| EditCorrections.AnswersAreDetermined | src/karaoke/worker/llm_corrector.py:123-150 | For each list of usable edits there is one right list of answers. |
| EditCorrections.PlanIsRight | src/karaoke/worker/llm_corrector.py:123-150 | The plan answers each usable edit, in edit order, at the first place where its words stand and no earlier answer touches them, and passes over exactly those that have none. |
| EditCorrections.EditsAreServed | src/karaoke/worker/llm_corrector.py:123-150 | An edit that is usable and stands somewhere is answered, or each place where it stands touches an answer. |
| EditCorrections.OutcomeServes | src/karaoke/worker/llm_corrector.py:113-154 | Nothing is returned only for the half cap or because no usable edit stands anywhere. |
| EditCorrections.GroupByLine | src/karaoke/worker/llm_corrector.py:118-121 | The table holds exactly the token numbers of each line, ascending. |
| EditCorrections.FindRun | src/karaoke/worker/llm_corrector.py:139-143 | The first position of the words on the line with no token taken, or none. |
| EditCorrections.SearchIsFirstFit | src/karaoke/worker/llm_corrector.py:139-143 | Searching the line's own list with a set of taken tokens is searching the text for an uncorrected place. |
| EditCorrections.Place | src/karaoke/worker/llm_corrector.py:141-150 | One edit makes the correction described, and its tokens become taken. |
| EditCorrections.EditsToCorrections | src/karaoke/worker/llm_corrector.py:113-154 | The corrections are those answers in text order, and the edits applied those answered, in edit order; both empty if and only if the answers would touch more than half of the tokens or there are none. |
| EditCorrections.PlannedAreOnTokens | src/karaoke/worker/llm_corrector.py:154 | Sorted by start, each correction ends before the next begins and lies on one line. |
| EditApplication.EveryCorrectionLands | src/karaoke/worker/word_vote.py:253-262 | A correction names tokens read from one line; where both cuts number the text alike it lies within that line's words, and each word it replaces is the only one in the chunk its token was read from. |
| EditApplication.OtherLinesAreTidied | src/karaoke/worker/word_vote.py:235-271 | Where both cuts number the text alike, a line from which no corrected token was read keeps its words and only has its spacing tidied. |
| EditApplication.BracketMakesCorrectionMiss | src/karaoke/worker/word_vote.py:235-271 | Asked to replace `foo` in `la[x2] foo`, the plan names token 1 and the rewritten line is `la[bar foo`. |
| EditApplication.RewrittenIsDetermined | src/karaoke/worker/word_vote.py:248-268 | The corrections and the line determine every rewritten piece. |
| EditApplication.SqueezesRun | src/karaoke/worker/word_vote.py:270 | Every run of two or more spaces and tabs becomes one space, whatever stands around it. |
| EditApplication.TidyKeepsWords | src/karaoke/worker/word_vote.py:270 | Collapsing blanks and trimming the end keeps all words of a line. |
| EditApplication.TidyIsSame | src/karaoke/worker/word_vote.py:270 | A line is left as it is if and only if it has no two adjacent blanks and no space at its end. |
| EditApplication.UncorrectedLine | src/karaoke/worker/word_vote.py:248-270 | A line on which no correction lands is only tidied, a metadata line not even that; either way it keeps its words. |
| EditApplication.ApplyToLine | src/karaoke/worker/word_vote.py:248-268 | Each corrected run becomes its replacement, and every other piece of the line is as it was. |
| EditApplication.ApplyCorrections | src/karaoke/worker/word_vote.py:235-271 | Without corrections the text is returned as it is; otherwise metadata lines are verbatim, and every other line is its pieces rewritten and then tidied. |
| EditApplication.CorrectTranscript | src/karaoke/worker/llm_corrector.py:157-165 | The answers to the usable edits, unless they touch more than half of the tokens, are what is corrected; every edit is then answered or crowded out, and the text becomes what applying the corrections makes of it. |

## Left out

- Model inference, ffmpeg, voice activity detection, forced alignment, HTTP, storage and authentication: their results
  are arbitrary inputs.
- Unicode normalisation, case folding and title patterns: comparison keys are data. `\d` is taken as the ASCII digits.
- Splitting a body into lines, the final newline, and UTF-8 length: a body is the list of its lines and its size a
  parameter.
- Float arithmetic and tag formatting with minute counts of 100 or more; `isfinite` checks and malformed decoder records.
- Retry scheduler: diagnostic records, refusal reasons of skipped rows, evidence segments, and a decode that fails
  half-way through matching (a failure is a failed decode). An untrusted segment is a barrier that matches no lyric; the
  code's marker word could match a line with that very text.
- `anchor_to_asr`: the third pass, which pulls up runs that are not heard anywhere, and the rendering of moved lines.
- `_repair_timing`, `_support`, `assess_lyrics` and `reconcile_alignment` of the quality audit; `drop_unreliable_aligned_lines`;
  percentile metrics and `error_rate`; `candidate_words`; `vote_corrections`.
- `save_review`: the metadata and quality documents, backups and artifact sizes beyond which version the rows describe.
  Restores succeed, the digest is collision-free, and the row lock ends with the commit attempt. The lyrics rebuild's
  own swap takes the lock without comparing revisions and is not part of the protocol here.
- `ProgressHub`: `aclose`, publishing from another thread or without a running loop, and the WebSocket endpoints. A
  cancelled task is taken to publish nothing more.
- The share page around the player's parser.
- Server, user interface, browser extension, migrations and provisioning.
