# ERL entity-linking core in Dafny

A model of the core of ERL, a toolkit for entity linking and its evaluation on the TAC-KBP tracks. Each module models one source file and proves what that file promises:

- **ElScorer**: the TAC-KBP 2011 reference scorer (`2011_el_scorer.py`). It reads gold and system linkings, inverts them into mention indexes, decides B2 and B3 pairwise correctness with NIL normalisation, aggregates element precision and recall, and skips systems whose mentions differ from the gold mentions.
- **TacOutput** and **ClusterEval**: the Java port of the scorer.
  - `Output` is a validated link.
  - `OutputLineProcessor` is a class that appends one link per accepted line.
  - `OutputSet` holds the clustering and the mention index.
  - Simple accuracy, and B-cubed and B-cubed+ precision, recall and F1.
- **CircularBuffer** and **ReplacingStream**: the fixed-size byte ring buffer (a class over an `array`) and the find/replace input stream built on two of them. The stream is proved against a value-level description of replacing every non-overlapping occurrence.
- **DocumentParser**: the character-level state machine that splits a TAC 2013 document collection at `<doc ...>` and `</doc>` and reports each document to a handler.
- **TacIO**: the TAC link-row formats of 2009, 2010 and 2012, format detection, and `parseBoolean`.
- **ConfusionBuilder**, **Comparators**: the confusion-matrix builder and the comparator combinators.
- **CandidateGeneration**, **AliasMapping**, **GeneratorCollection**, **RandomRanker**: candidate generation.
  - Alias chasing with loop detection.
  - First, intersection and union aggregation.
  - The Fisher-Yates ranker.
- **EntityLinking**, **JsonUtil**, **AnnotationService**: mention finding, surface grouping and id choice in the annotator; token chunking, JSON pieces and XML escaping; and the planning of annotation steps.
- **CharacterShape**, **AnnotationToXml**, **T9Sax**, **HttpStatus**:
  - the character-shape annotator;
  - simple-name generation with collision avoidance;
  - the SAX handler stack for the TAC 2009 knowledge base;
  - the HTTP status table.
- **Wrappers**, **Sums**, **Collections**, **Text**: shared helpers. These are Option/Result/Outcome, sums over finite sets, small collection facts, and ASCII case, whitespace splitting and number formatting.

## How the environment is modelled

Library behaviour the code relies on becomes a parameter or an explicit definition:
- Python's `str.upper` becomes the `upper` parameter.
- Java's `Character.getType` becomes `getType`.
- Random draws become a sequence of draws.
- Delegate candidate generators and rankers become functions.
- Iteration order of Python dicts and sets and of Java hash sets is left open: methods choose elements with `:|`, and sums over sets are stated order-free.
- Reflection (the classes found under annotation roots) becomes a list of class names.
- Scores are `real`; Java's NaN from 0/0 is `None`.

The scorer is modelled on what its code does:
- `readLinking` accepts any line with at least two fields and uses the first two. A blank line, or a line with one field, fails with the index error Python raises.
- `getMap` does not reject a mention that appears in two clusters. The later cluster in iteration order overwrites it, so the model promises only that each mention maps to some cluster holding it. `IndexExact` gives the exact inverse for disjoint clusterings.
- `b2_recall` calls `b3_precision`; see Findings.
- A precision with no elements is a division by zero in the code. The model makes it undefined (`None`), not 0.
- The NIL test checks only the prefix "NIL". The docstring of `sameLinking` (`2011_el_scorer.py:59`) and the usage text (`:236`) describe NIL identifiers as NILXXX, with three digits, but the code never checks the digits.

## Model

| member | source | states |
|---|---|---|
| ElScorer.LinkOf | old/src/main/scripts/2011_el_scorer.py:16-19 | a line gives a (mention, KB id) pair, both upper-cased, exactly when splitting it on whitespace gives at least two fields |
| ElScorer.ReadLinking | old/src/main/scripts/2011_el_scorer.py:9-25 | fails at the first line with fewer than two fields and only then. Otherwise the result is the grouping of all lines, each mention added to the set of its KB id |
| ElScorer.GroupRepresents | old/src/main/scripts/2011_el_scorer.py:15-24 | a mention is in the cluster of a KB id exactly when some line links them, and no cluster is empty |
| ElScorer.GetMap | old/src/main/scripts/2011_el_scorer.py:149-155 | the index holds exactly the mentions of the linking, each mapped to a KB id whose cluster contains it |
| ElScorer.IndexExact | old/src/main/scripts/2011_el_scorer.py:149-155 | when no mention is in two clusters, the index maps every member of cluster k to k |
| ElScorer.NilEquivalence | old/src/main/scripts/2011_el_scorer.py:70-73 | two ids normalise to the same id exactly when both start with "NIL", or neither does and they are equal |
| ElScorer.InSameSetReflexiveSymmetric | old/src/main/scripts/2011_el_scorer.py:79-80 | inSameSet is reflexive and symmetric |
| ElScorer.SameLinkingSymmetric | old/src/main/scripts/2011_el_scorer.py:55-77 | sameLinking is symmetric in the two mentions and in the two indexes; sameLinking(a, a) holds exactly when a's normalised system and gold ids agree |
| ElScorer.NilMentionsSameLinking | old/src/main/scripts/2011_el_scorer.py:55-77 | two mentions whose system and gold ids all start with "NIL" have the same linking |
| ElScorer.B3ImpliesB2 | old/src/main/scripts/2011_el_scorer.py:28-53 | a pair correct under B3 is correct under B2 |
| ElScorer.CorrectIndexSwap | old/src/main/scripts/2011_el_scorer.py:28-53 | exchanging the system and gold indexes does not change correctness |
| ElScorer.CountCorrect | old/src/main/scripts/2011_el_scorer.py:102-107 | the count is the number of members of the cluster that form a correct pair with the mention |
| ElScorer.ClusterPrecisionSum | old/src/main/scripts/2011_el_scorer.py:102-111 | the sum is the sum, over the cluster's members, of each member's share of correct partners |
| ElScorer.Precision | old/src/main/scripts/2011_el_scorer.py:90-147 | the result is the sum of element precisions divided by the number of elements, or undefined (a division by zero) when there are no elements |
| ElScorer.Recall | old/src/main/scripts/2011_el_scorer.py:86-88 | recall is the precision of the gold clustering scored against the system clustering; the indexes are passed in their usual places, which gives the same value as exchanging them |
| ElScorer.PrecisionIndexSwap | old/src/main/scripts/2011_el_scorer.py:90-117 | precision does not depend on which index is called system and which gold |
| ElScorer.ElementPrecisionBounds | old/src/main/scripts/2011_el_scorer.py:102-109 | each element precision lies in [0, 1], and is positive under B2 for a mention of its own cluster |
| ElScorer.PrecisionBounds | old/src/main/scripts/2011_el_scorer.py:90-147 | precision is defined exactly when some cluster is non-empty; it then lies in [0, 1], and B2 precision is positive |
| ElScorer.ElementPerfect | old/src/main/scripts/2011_el_scorer.py:102-109 | in a linking scored against itself every element precision is 1 |
| ElScorer.PerfectPrecision | old/src/main/scripts/2011_el_scorer.py:90-147 | a non-empty linking scored against itself has precision 1 |
| ElScorer.ScoreSystem | old/src/main/scripts/2011_el_scorer.py:185-217 | a system that lacks a gold mention is skipped with the missing mentions; otherwise one with a mention the gold standard lacks is skipped with the extra mentions; otherwise it gets B3 precision and recall |
| ElScorer.B2RecallAsWritten | old/src/main/scripts/2011_el_scorer.py:82-84 | b2_recall as written returns the B3 precision of the gold clustering |
| ElScorer.B2RecallAsWrittenDiffers | old/src/main/scripts/2011_el_scorer.py:82-84 | for one mention linked to E1 in gold and E2 by the system, B3 gives 0 and B2 gives 1, so b2_recall as written differs from B2 recall |
| ElScorer.DifferingIdsPrecision | old/src/main/scripts/2011_el_scorer.py:28-53 | a mention linked to E1 in gold and E2 by the system has element precision 0 under B3 and 1 under B2, so B3 is strictly stronger |
| TacOutput.NewOutput | src/main/java/uk/ac/susx/mlcl/erl/tac/queries/Output.java:30-43 | an output is built exactly when the mention id and KB id are non-empty and the confidence is in [0, 1], and then it holds those three values. The first failed check gives the error |
| TacOutput.OutputOfParts | src/main/java/uk/ac/susx/mlcl/erl/tac/io/OutputLineProcessor.java:41-48 | fewer than two or more than three parts is a part-count error carrying the count. A built output takes the mention id and KB id from the first two parts and a confidence of 1.0, or the third part parsed. Its confidence is always in [0, 1] |
| TacOutput.OutputOfTwoParts | src/main/java/uk/ac/susx/mlcl/erl/tac/io/OutputLineProcessor.java:42-48 | two non-empty parts give that output with confidence 1.0 |
| TacOutput.OutputOfThreeParts | src/main/java/uk/ac/susx/mlcl/erl/tac/io/OutputLineProcessor.java:42-48 | three parts whose third parses to a confidence in [0, 1] give back exactly that output |
| TacOutput.ParseTwoFields | src/main/java/uk/ac/susx/mlcl/erl/tac/io/OutputLineProcessor.java:40-48 | a line "mention TAB kb" of whitespace-free non-empty fields parses to that output with confidence 1.0 |
| TacOutput.ParseThreeFields | src/main/java/uk/ac/susx/mlcl/erl/tac/io/OutputLineProcessor.java:40-48 | a line "mention TAB kb TAB confidence" parses back to the output whose confidence text it carries |
| TacOutput.OutputLineProcessor.constructor | src/main/java/uk/ac/susx/mlcl/erl/tac/io/OutputLineProcessor.java:27-29 | a new processor has the given name and no outputs |
| TacOutput.OutputLineProcessor.ProcessLine | src/main/java/uk/ac/susx/mlcl/erl/tac/io/OutputLineProcessor.java:40-50 | a line that parses appends its output and passes. A line that fails leaves the outputs unchanged and reports the parse error |
| TacOutput.OutputLineProcessor.GetResult | src/main/java/uk/ac/susx/mlcl/erl/tac/io/OutputLineProcessor.java:58-60 | the set is built exactly when no mention id repeats, and then it is the set named by the processor over all outputs read, in order |
| TacOutput.NewInstance | src/main/java/uk/ac/susx/mlcl/erl/tac/queries/OutputSet.java:36-49 | succeeds exactly when the mention ids are distinct, giving the links in order with the KB-id clusters and the mention index built from them. Otherwise it reports a mention id that occurs twice |
| TacOutput.ClustersOfSpec | src/main/java/uk/ac/susx/mlcl/erl/tac/queries/OutputSet.java:37-45 | every link lies in the cluster of its KB id, every cluster member is a link with that KB id, and no cluster is empty |
| TacOutput.BuiltStructure | src/main/java/uk/ac/susx/mlcl/erl/tac/queries/OutputSet.java:36-49 | in a built set the mention ids are distinct, the index keys are exactly the links' mention ids, the index maps each mention id to its link, and the clusters partition the links by KB id |
| TacOutput.ClusterSizes | src/main/java/uk/ac/susx/mlcl/erl/tac/queries/OutputSet.java:37-45 | for distinct links the sizes of the clusters add up to the number of links |
| TacOutput.BuiltClusterSizes | src/main/java/uk/ac/susx/mlcl/erl/tac/queries/OutputSet.java:36-49 | in a built set the cluster sizes add up to the number of links |
| TacOutput.MentionCountSpec | src/main/java/uk/ac/susx/mlcl/erl/tac/queries/OutputSet.java:79-81 | the mention count equals the number of links and the number of distinct mention ids |
| TacOutput.InSameClusterSpec | src/main/java/uk/ac/susx/mlcl/erl/tac/queries/OutputSet.java:55-65 | two indexed mentions are in the same cluster exactly when the second one's link lies in the cluster of the first one's KB id. The relation is reflexive and symmetric |
| ClusterEval.TrueCount | src/main/java/uk/ac/susx/mlcl/erl/tac/eval/SimpleClusterEvaluation.java:25-38 | the count is the number of gold mentions whose gold and system KB ids agree once ids starting with "NIL" are collapsed to "NIL" |
| ClusterEval.Accuracy | src/main/java/uk/ac/susx/mlcl/erl/tac/eval/SimpleClusterEvaluation.java:41-43 | accuracy is the true count divided by the number of gold mentions, and undefined (NaN) for an empty gold set |
| ClusterEval.TrueMention | src/main/java/uk/ac/susx/mlcl/erl/tac/eval/SimpleClusterEvaluation.java:27-35 | a gold mention counts as true exactly when both ids start with "NIL", or neither does and they are equal |
| ClusterEval.AccuracyBounds | src/main/java/uk/ac/susx/mlcl/erl/tac/eval/SimpleClusterEvaluation.java:41-43 | accuracy is defined exactly when the gold set is non-empty, and then lies in [0, 1] |
| ClusterEval.AccuracyPerfect | src/main/java/uk/ac/susx/mlcl/erl/tac/eval/SimpleClusterEvaluation.java:25-43 | a non-empty output scored against itself has accuracy 1 |
| ClusterEval.CountCorrectOutputs | src/main/java/uk/ac/susx/mlcl/erl/tac/eval/BCubedEvaluation.java:35-40 | the count is the number of cluster members that form a correct pair with the output, under the metric's correctness |
| ClusterEval.PutClusterPrecisions | src/main/java/uk/ac/susx/mlcl/erl/tac/eval/BCubedEvaluation.java:34-43 | each member of the cluster is added to the map with its precision, the share of its cluster it is correct with, and the entries already there are kept |
| ClusterEval.PrecisionMap | src/main/java/uk/ac/susx/mlcl/erl/tac/eval/BCubedEvaluation.java:28-46 | the map holds exactly the system's mentions, each with its precision within its own KB-id cluster against the gold index |
| ClusterEval.SumValues | src/main/java/uk/ac/susx/mlcl/erl/tac/eval/BCubedEvaluation.java:55-57 | the sum covers exactly the values of the given mentions, visited in any order |
| ClusterEval.Mean | src/main/java/uk/ac/susx/mlcl/erl/tac/eval/BCubedEvaluation.java:53-58 | the mean of the values over the mentions, undefined (NaN) for no mentions |
| ClusterEval.AveragePrecision | src/main/java/uk/ac/susx/mlcl/erl/tac/eval/BCubedEvaluation.java:53-59 | the mean system precision over the focus mentions |
| ClusterEval.AverageRecall | src/main/java/uk/ac/susx/mlcl/erl/tac/eval/BCubedEvaluation.java:61-67 | the mean recall over the focus mentions, recall being precision with system and gold exchanged (91-93) |
| ClusterEval.MacroAverageF1Score | src/main/java/uk/ac/susx/mlcl/erl/tac/eval/BCubedEvaluation.java:79-85 | the harmonic mean of the average precision and recall, and 0 when their sum is not positive or either is NaN |
| ClusterEval.SumF1 | src/main/java/uk/ac/susx/mlcl/erl/tac/eval/BCubedEvaluation.java:72-75 | the sum of the per-mention F1 over the focus, a mention with precision and recall both 0 adding nothing |
| ClusterEval.MicroAverageF1Score | src/main/java/uk/ac/susx/mlcl/erl/tac/eval/BCubedEvaluation.java:69-77 | the per-mention F1 averaged over the focus mentions, undefined (NaN) for an empty focus |
| ClusterEval.OutputPrecisionBounds | src/main/java/uk/ac/susx/mlcl/erl/tac/eval/BCubedEvaluation.java:34-42 | a mention's precision lies in [0, 1], and under plain B-cubed it is positive for a mention of its own cluster |
| ClusterEval.PlusAtMostPlain | src/main/java/uk/ac/susx/mlcl/erl/tac/eval/BCubedPlusEvaluation.java:41-46 | the extended correctness implies the plain one, so B-cubed+ precision of a mention is at most its B-cubed precision |
| ClusterEval.PrecisionMapBounds | src/main/java/uk/ac/susx/mlcl/erl/tac/eval/BCubedEvaluation.java:28-46 | the precision map has exactly the system's mentions as keys, and every value lies in [0, 1] (positive under plain B-cubed) |
| ClusterEval.PlusMapAtMostPlain | src/main/java/uk/ac/susx/mlcl/erl/tac/eval/BCubedPlusEvaluation.java:41-46 | both maps have the same keys, and each B-cubed+ value is at most the B-cubed one |
| ClusterEval.PerfectPrecisionMap | src/main/java/uk/ac/susx/mlcl/erl/tac/eval/BCubedEvaluation.java:28-46 | an output scored against itself has precision 1 for every mention |
| ClusterEval.MeanBounds | src/main/java/uk/ac/susx/mlcl/erl/tac/eval/BCubedEvaluation.java:53-58 | the mean of values in [0, 1] is defined exactly for a non-empty set of mentions, and then lies in [0, 1]. It is positive when every value is |
| ClusterEval.AveragePrecisionBounds | src/main/java/uk/ac/susx/mlcl/erl/tac/eval/BCubedEvaluation.java:53-59 | the average precision is defined exactly for a non-empty focus, and then lies in [0, 1] (positive under plain B-cubed) |
| ClusterEval.PlusAverageAtMostPlain | src/main/java/uk/ac/susx/mlcl/erl/tac/eval/BCubedPlusEvaluation.java:15-46 | the B-cubed+ average precision is at most the B-cubed one |
| ClusterEval.F1Bounds | src/main/java/uk/ac/susx/mlcl/erl/tac/eval/BCubedEvaluation.java:75-84 | F1 of values in [0, 1] lies in [0, 1] and between the two values, and F1(p, p) is p |
| ClusterEval.MacroF1Bounds | src/main/java/uk/ac/susx/mlcl/erl/tac/eval/BCubedEvaluation.java:79-85 | the macro F1 lies in [0, 1] whatever the averages |
| ClusterEval.MicroF1Bounds | src/main/java/uk/ac/susx/mlcl/erl/tac/eval/BCubedEvaluation.java:69-77 | the micro F1 is defined exactly for a non-empty focus, and then lies in [0, 1] |
| ClusterEval.PerfectScores | src/main/java/uk/ac/susx/mlcl/erl/tac/eval/BCubedEvaluation.java:53-85 | an output scored against itself has average precision 1, macro F1 1 and micro F1 1 on any non-empty focus |
| CircularBuffer.CircularByteBuffer.constructor | src/main/java/uk/ac/susx/mlcl/erl/tac/io/CircularByteBuffer.java:25-29 | a new buffer of the given capacity is empty |
| CircularBuffer.CircularByteBuffer.Capacity | src/main/java/uk/ac/susx/mlcl/erl/tac/io/CircularByteBuffer.java:31-33 | returns the fixed capacity |
| CircularBuffer.CircularByteBuffer.Length | src/main/java/uk/ac/susx/mlcl/erl/tac/io/CircularByteBuffer.java:35-37 | returns the number of bytes held |
| CircularBuffer.CircularByteBuffer.IsEmpty | src/main/java/uk/ac/susx/mlcl/erl/tac/io/CircularByteBuffer.java:66-68 | true exactly when no byte is held |
| CircularBuffer.CircularByteBuffer.IsFull | src/main/java/uk/ac/susx/mlcl/erl/tac/io/CircularByteBuffer.java:85-87 | true exactly when the bytes held fill the capacity |
| CircularBuffer.CircularByteBuffer.Clear | src/main/java/uk/ac/susx/mlcl/erl/tac/io/CircularByteBuffer.java:39-43 | afterwards the buffer holds nothing |
| CircularBuffer.CircularByteBuffer.EqualsBytes | src/main/java/uk/ac/susx/mlcl/erl/tac/io/CircularByteBuffer.java:45-53 | true exactly when the array equals the bytes held, oldest first |
| CircularBuffer.CircularByteBuffer.WrapIsMod | src/main/java/uk/ac/susx/mlcl/erl/tac/io/CircularByteBuffer.java:49 | the wrapped index equals the index modulo the capacity, as the source computes it |
| CircularBuffer.CircularByteBuffer.Get | src/main/java/uk/ac/susx/mlcl/erl/tac/io/CircularByteBuffer.java:55-64 | an empty buffer fails with underflow and stays empty. Otherwise it returns the oldest byte and holds the rest in order |
| CircularBuffer.CircularByteBuffer.Put | src/main/java/uk/ac/susx/mlcl/erl/tac/io/CircularByteBuffer.java:70-78 | a full buffer fails with overflow and is unchanged. Otherwise the byte is appended after the bytes held |
| CircularBuffer.CircularByteBuffer.PutAll | src/main/java/uk/ac/susx/mlcl/erl/tac/io/CircularByteBuffer.java:80-83 | the bytes are appended in order while there is room. If they do not all fit, the buffer keeps the prefix that fitted and the call fails with overflow |
| ReplacingStream.ReplaceAllNoMatch | src/main/java/uk/ac/susx/mlcl/erl/tac/io/ReplacingInputStream.java:12-18 | a stream without an occurrence of the pattern passes unchanged |
| ReplacingStream.ReplaceAllFirst | src/main/java/uk/ac/susx/mlcl/erl/tac/io/ReplacingInputStream.java:12-18 | the first occurrence is replaced and the scan resumes after it |
| ReplacingStream.ReplaceAllEmpty | src/main/java/uk/ac/susx/mlcl/erl/tac/io/ReplacingInputStream.java:12-18 | with non-empty patterns the filtered stream is empty exactly when the input is |
| ReplacingStream.ReplaceOnce | src/main/java/uk/ac/susx/mlcl/erl/tac/io/ReplacingInputStream.java:12-18 | a single occurrence, whose first byte appears nowhere else, is replaced and everything around it is kept |
| ReplacingStream.ReplaceHelloXyz | src/main/java/uk/ac/susx/mlcl/erl/tac/io/ReplacingInputStream.java:25-55 | "hello xyz world." with "xyz" replaced by "abc" reads "hello abc world." |
| ReplacingStream.ReplaceHelloAmpersand | src/main/java/uk/ac/susx/mlcl/erl/tac/io/ReplacingInputStream.java:25-55 | "hello & world." with "& " replaced by "&amp; " reads "hello &amp; world.": unlike the xyz example, the replacement is longer than the search, so the output buffer holds more bytes than the window did |
| ReplacingStream.ReplaceAllStep | src/main/java/uk/ac/susx/mlcl/erl/tac/io/ReplacingInputStream.java:35-51 | one step of read on a full window, or on a short one at the end of the stream: a matching window gives the replacement, any other window passes its first byte, and an empty window means the end. Each case agrees with replacing over the whole stream |
| ReplacingStream.ReplacingInputStream.constructor | src/main/java/uk/ac/susx/mlcl/erl/tac/io/ReplacingInputStream.java:25-31 | the new stream will deliver, in order, the delegate's bytes with every occurrence of the search pattern replaced |
| ReplacingStream.ReplacingInputStream.ReadDelegate | src/main/java/uk/ac/susx/mlcl/erl/tac/io/ReplacingInputStream.java:38 | returns the delegate's next byte as 0 to 255 and consumes it, or -1 at the delegate's end |
| ReplacingStream.ReplacingInputStream.FillWindow | src/main/java/uk/ac/susx/mlcl/erl/tac/io/ReplacingInputStream.java:37-42 | moves bytes from the delegate into the window until the window is as long as the pattern or the delegate ends, keeping their order |
| ReplacingStream.ReplacingInputStream.Refill | src/main/java/uk/ac/susx/mlcl/erl/tac/io/ReplacingInputStream.java:35-52 | what remains to be delivered is unchanged, and the output buffer is left empty only at the end of the stream |
| ReplacingStream.ReplacingInputStream.Read | src/main/java/uk/ac/susx/mlcl/erl/tac/io/ReplacingInputStream.java:33-55 | returns the next byte of the filtered stream, sign-extended as written, or -1 at the end, and consumes that byte |
| ReplacingStream.ReplacingInputStream.ReadUnsigned | src/main/java/uk/ac/susx/mlcl/erl/tac/io/ReplacingInputStream.java:33-55 | returns the next byte of the filtered stream as 0 to 255, or -1 at the end, and consumes that byte |
| ReplacingStream.ReplacingInputStream.ReadOneInto | src/main/java/uk/ac/susx/mlcl/erl/tac/io/ReplacingInputStream.java:65-67 | one turn of the loop as written: a byte is stored at the slot exactly when one remains and it is not 0xFF (which the signed read gives as -1); either way one byte is consumed and no other slot changes |
| ReplacingStream.ReplacingInputStream.ReadInto | src/main/java/uk/ac/susx/mlcl/erl/tac/io/ReplacingInputStream.java:62-72 | as written, over the signed read: stores the remaining bytes before the first 0xFF, at most len, at b[off..] and leaves all other slots unchanged. It consumes them and, when it stopped at a 0xFF before len, that byte too. Returns the number stored, or -1 when none is stored and len > 0 |
| ReplacingStream.ClearRun | src/main/java/uk/ac/susx/mlcl/erl/tac/io/ReplacingInputStream.java:65 | the bytes before the first 0xFF: none of them is 0xFF, and the byte after them, if any, is |
| ReplacingStream.SignedReadIntoStopsAtFF | src/main/java/uk/ac/susx/mlcl/erl/tac/io/ReplacingInputStream.java:62-72 | as written, reading two bytes from "0xFF A" stores nothing and returns -1, yet consumes the 0xFF |
| ReplacingStream.ReplacingInputStream.ReadOneIntoUnsigned | src/main/java/uk/ac/susx/mlcl/erl/tac/io/ReplacingInputStream.java:65-67 | over the corrected read: a byte is stored at the slot exactly when one remains, it is consumed, and no other slot changes |
| ReplacingStream.ReplacingInputStream.ReadIntoUnsigned | src/main/java/uk/ac/susx/mlcl/erl/tac/io/ReplacingInputStream.java:62-72 | over the corrected read: stores the next min(len, remaining) filtered bytes at b[off..] and leaves all other slots unchanged. Returns the number stored, or -1 when none is stored and len > 0 |
| ReplacingStream.ReplacingInputStream.Skip | src/main/java/uk/ac/susx/mlcl/erl/tac/io/ReplacingInputStream.java:74-80 | as written, over the signed read: counts the remaining bytes before the first 0xFF, up to n, and consumes them and, when it stopped at a 0xFF before n, that byte too; none for n <= 0 |
| ReplacingStream.ReplacingInputStream.SkipUnsigned | src/main/java/uk/ac/susx/mlcl/erl/tac/io/ReplacingInputStream.java:74-80 | over the corrected read: consumes and counts up to n filtered bytes, and none for n <= 0 |
| ReplacingStream.ReplacingInputStream.Available | src/main/java/uk/ac/susx/mlcl/erl/tac/io/ReplacingInputStream.java:82-85 | the bytes in both buffers plus the estimate the delegate gives, which is at most what it has left. It is 0 when nothing remains to be delivered, and never less than the bytes in the output buffer |
| ReplacingStream.ReplacingInputStream.MarkSupported | src/main/java/uk/ac/susx/mlcl/erl/tac/io/ReplacingInputStream.java:102-105 | mark is not supported |
| ReplacingStream.ReplacingInputStream.Mark | src/main/java/uk/ac/susx/mlcl/erl/tac/io/ReplacingInputStream.java:92-95 | always fails with "Mark/reset is not supported." |
| ReplacingStream.ReplacingInputStream.Reset | src/main/java/uk/ac/susx/mlcl/erl/tac/io/ReplacingInputStream.java:97-100 | always fails with "Mark/reset is not supported." |
| ReplacingStream.SignedReadConfusesEnd | src/main/java/uk/ac/susx/mlcl/erl/tac/io/ReplacingInputStream.java:54 | as written, a remaining byte 0xFF reads as -1, the value that marks the end of the stream |
| ReplacingStream.UnsignedReadSpec | src/main/java/uk/ac/susx/mlcl/erl/tac/io/ReplacingInputStream.java:54 | the corrected read gives -1 exactly at the end, and otherwise a value from 0 to 255 that casts back to the next byte |
| DocumentParser.DocumentCollectionParser.constructor | src/main/java/uk/ac/susx/mlcl/erl/tac/io/Tac2013DocumentCollectionParser.java:25-32 | a new parser is before the first character (offset -1) with nothing read and no callbacks made |
| DocumentParser.DocumentCollectionParser.Advance | src/main/java/uk/ac/susx/mlcl/erl/tac/io/Tac2013DocumentCollectionParser.java:43-49 | reads the next character, moves the offset by one, and adds the character to the content unless the reader has ended |
| DocumentParser.DocumentCollectionParser.IsEof | src/main/java/uk/ac/susx/mlcl/erl/tac/io/Tac2013DocumentCollectionParser.java:51-53 | true exactly when the offset is past the last character |
| DocumentParser.DocumentCollectionParser.GetCharacter | src/main/java/uk/ac/susx/mlcl/erl/tac/io/Tac2013DocumentCollectionParser.java:55-59 | returns the current character, and fails with EOF past the end |
| DocumentParser.DocumentCollectionParser.Character | src/main/java/uk/ac/susx/mlcl/erl/tac/io/Tac2013DocumentCollectionParser.java:92-94 | tells whether the current character matches, and fails with EOF past the end |
| DocumentParser.DocumentCollectionParser.ReadExpected | src/main/java/uk/ac/susx/mlcl/erl/tac/io/Tac2013DocumentCollectionParser.java:70-76 | a matching character is consumed. A mismatch is reported to the handler as an error and the character is kept. Past the end it fails with EOF and nothing changes |
| DocumentParser.DocumentCollectionParser.AdvanceWhile | src/main/java/uk/ac/susx/mlcl/erl/tac/io/Tac2013DocumentCollectionParser.java:78-81 | consumes the longest run of matching characters from the current one. It stops at the end or at the first character that does not match |
| DocumentParser.DocumentCollectionParser.AdvanceIf | src/main/java/uk/ac/susx/mlcl/erl/tac/io/Tac2013DocumentCollectionParser.java:83-90 | consumes the current character exactly when it matches and says whether it did. Past the end it fails with EOF |
| DocumentParser.DocumentCollectionParser.AdvanceOverEndTag | src/main/java/uk/ac/susx/mlcl/erl/tac/io/Tac2013DocumentCollectionParser.java:115-120 | consumes the longest prefix of "</doc>" (letters in any case) found at the offset, stopping at the first mismatch, and fails with EOF at the end |
| DocumentParser.DocumentCollectionParser.SkipPastEndTag | src/main/java/uk/ac/susx/mlcl/erl/tac/io/Tac2013DocumentCollectionParser.java:110-123 | stops just past the first "</doc>" at or after the starting offset, or fails with EOF at the end of the text |
| DocumentParser.DocumentCollectionParser.ReadUntilDocumentEnd | src/main/java/uk/ac/susx/mlcl/erl/tac/io/Tac2013DocumentCollectionParser.java:108-126 | stops just past the first end tag and reports a document end at that offset, carrying everything read since the last document ended. The content then starts afresh |
| DocumentParser.DocumentCollectionParser.ReadEach | src/main/java/uk/ac/susx/mlcl/erl/tac/io/Tac2013DocumentCollectionParser.java:98-101 | reads one expected character per matcher in turn. Only errors are reported. With no error each character matched its matcher |
| DocumentParser.DocumentCollectionParser.ReadDocName | src/main/java/uk/ac/susx/mlcl/erl/tac/io/Tac2013DocumentCollectionParser.java:98-101 | reads "<doc" (letters in any case), reporting only errors; with none the four characters were "<", "d", "o", "c" |
| DocumentParser.DocumentCollectionParser.ReadTagRest | src/main/java/uk/ac/susx/mlcl/erl/tac/io/Tac2013DocumentCollectionParser.java:103-105 | after whitespace, skips to the next ">", then reads the ">", reporting only errors |
| DocumentParser.DocumentCollectionParser.ParseDocumentOpenTag | src/main/java/uk/ac/susx/mlcl/erl/tac/io/Tac2013DocumentCollectionParser.java:96-106 | reports a document start at the current offset, then only errors. With no error the characters consumed form an open tag: "<doc>" or "<doc" then whitespace and anything but ">" up to ">" |
| DocumentParser.DocumentCollectionParser.ParseDocument | src/main/java/uk/ac/susx/mlcl/erl/tac/io/Tac2013DocumentCollectionParser.java:65-68 | one document start followed by its end keeps the callbacks properly nested, the last start still open only after an EOF failure |
| DocumentParser.DocumentCollectionParser.Parse | src/main/java/uk/ac/susx/mlcl/erl/tac/io/Tac2013DocumentCollectionParser.java:34-41 | document starts and ends alternate, starting with a start, and end with an end unless parsing failed with EOF. On success the whole text was read, and the document contents are the text up to a trailing run of whitespace |
| DocumentParser.DocumentsAppend | src/main/java/uk/ac/susx/mlcl/erl/tac/io/Tac2013DocumentCollectionParser.java:124 | a document end adds its content to the concatenated documents, and any other callback adds nothing |
| DocumentParser.NestedAppend | src/main/java/uk/ac/susx/mlcl/erl/tac/io/Tac2013DocumentCollectionParser.java:97-124 | an error keeps the nesting, a start opens it and an end closes it |
| DocumentParser.DocumentCollectionParser.ErrorsKeepNesting | src/main/java/uk/ac/susx/mlcl/erl/tac/io/Tac2013DocumentCollectionParser.java:96-106 | a start followed only by errors leaves one document open |
| TacIO.EntityTypeOf | src/main/java/uk/ac/susx/mlcl/erl/tac/TacIO.java:213 | returns the entity type whose name is exactly the string, and otherwise fails with no such constant |
| TacIO.EntityTypeNameRoundTrip | src/main/java/uk/ac/susx/mlcl/erl/tac/TacIO.java:251 | reading back the name of an entity type gives that type |
| TacIO.GenreOf | src/main/java/uk/ac/susx/mlcl/erl/tac/TacIO.java:266 | returns the genre whose name is exactly the string, and otherwise fails with no such constant |
| TacIO.GenreNameRoundTrip | src/main/java/uk/ac/susx/mlcl/erl/tac/TacIO.java:278 | reading back the name of a genre gives that genre |
| TacIO.NewLink | src/main/java/uk/ac/susx/mlcl/erl/tac/Link.java:45-60 | a link is built exactly when both ids are non-empty, and then holds the given fields. An empty query id, then an empty node id, gives the error |
| TacIO.ParseBoolean | src/main/java/uk/ac/susx/mlcl/erl/tac/TacIO.java:77-86 | any string other than the accepted spellings fails with a truthy-value error |
| TacIO.ParseBooleanWritten | src/main/java/uk/ac/susx/mlcl/erl/tac/TacIO.java:77-86 | "YES" and "NO", as the writers produce them, read back as true and false |
| TacIO.ParseBooleanBlanks | src/main/java/uk/ac/susx/mlcl/erl/tac/TacIO.java:79 | leading and trailing blanks do not change the result |
| TacIO.ParseBooleanSameWord | src/main/java/uk/ac/susx/mlcl/erl/tac/TacIO.java:79 | strings equal after trimming parse alike |
| TacIO.ParseBooleanMixedCase | src/main/java/uk/ac/susx/mlcl/erl/tac/TacIO.java:79-81 | "Yes" is true, as lower-casing precedes the comparison |
| TacIO.ParseBooleanRefuses | src/main/java/uk/ac/susx/mlcl/erl/tac/TacIO.java:84-85 | "y" is not a truthy value |
| TacIO.DetectFormatFromLinks | src/main/java/uk/ac/susx/mlcl/erl/tac/TacIO.java:45-75 | no row is an error. Three columns are the 2009 layout. With five columns, YES or NO in the fifth is 2012 and, failing that, in the fourth is 2010. Any other column count is an error |
| TacIO.ParseLink | src/main/java/uk/ac/susx/mlcl/erl/tac/TacIO.java:208-215 | a row with the wrong number of columns is refused. A parsed link takes its ids and entity type from the first three columns, is well formed, and has a flag and a genre exactly outside the 2009 layout (also 258-268 and 285-295) |
| TacIO.WriteLink | src/main/java/uk/ac/susx/mlcl/erl/tac/TacIO.java:247-253 | the 2009 layout always writes three columns. The others write five, and fail exactly when the flag or genre is unset (also 271-280 and 298-306) |
| TacIO.WriteThenParse | src/main/java/uk/ac/susx/mlcl/erl/tac/TacIO.java:208-306 | a link that fits the layout is written without error and parses back to itself |
| TacIO.WriteThenParse2010 | src/main/java/uk/ac/susx/mlcl/erl/tac/TacIO.java:258-280 | in the 2010 layout a written link parses back to itself, the genre WB going through "WL" |
| TacIO.WriteThenParse2012 | src/main/java/uk/ac/susx/mlcl/erl/tac/TacIO.java:285-306 | in the 2012 layout a written link parses back to itself, with genre and flag swapped in place |
| TacIO.ParseThenWrite | src/main/java/uk/ac/susx/mlcl/erl/tac/TacIO.java:208-306 | a row that parses is written back to a row that parses to the same link |
| TacIO.DetectWrittenFormat | src/main/java/uk/ac/susx/mlcl/erl/tac/TacIO.java:45-75 | the layout of a written row is detected as the layout that wrote it |
| TacIO.WebGenre2010 | src/main/java/uk/ac/susx/mlcl/erl/tac/TacIO.java:266-278 | the 2010 layout writes genre WB as "WL" and reads "WL" back as WB |
| TacIO.WebGenreName2010 | src/main/java/uk/ac/susx/mlcl/erl/tac/TacIO.java:266 | the 2010 layout also reads "WB" as WB |
| TacIO.RegressionRow2010 | src/main/java/uk/ac/susx/mlcl/erl/tac/TacIO.java:45-75 | the 2010 row "EL000281 NIL0001 GPE NO WL" is detected as 2010 and parses to a GPE link to NIL0001 without web search, genre WB |
| TacIO.RegressionRow2012 | src/main/java/uk/ac/susx/mlcl/erl/tac/TacIO.java:45-75 | the 2012 row "EL_ENG_00001 E0800145 PER WB NO" is detected as 2012, parses, and writes back to itself |
| TacIO.RegressionRow2009 | src/main/java/uk/ac/susx/mlcl/erl/tac/TacIO.java:52-54 | a three-column row is detected as the 2009 layout |
| TacIO.ReadAll | src/main/java/uk/ac/susx/mlcl/erl/tac/TacIO.java:177-189 | succeeds exactly when every row parses, giving the links in row order. Otherwise it fails with the error of the first row that does not parse |
| TacIO.WriteAll | src/main/java/uk/ac/susx/mlcl/erl/tac/TacIO.java:217-229 | succeeds exactly when every link can be written, giving one row per link in order |
| ConfusionBuilder.CellsSumToTotal | src/main/java/uk/ac/susx/mlcl/erl/tac/eval/ConfusionMatrixBuilder.java:150-156 | when every result's labels are among distinct labels, the cells of the count grid add up to the total number of occurrences |
| ConfusionBuilder.ConfusionMatrixBuilder.constructor | src/main/java/uk/ac/susx/mlcl/erl/tac/eval/ConfusionMatrixBuilder.java:33-41 | a new builder has no labels, next index 0 and no results |
| ConfusionBuilder.ConfusionMatrixBuilder.IndicesAreRange | src/main/java/uk/ac/susx/mlcl/erl/tac/eval/ConfusionMatrixBuilder.java:43-46 | the label indices are exactly 0 to next index - 1, one per label, so no two labels share an index |
| ConfusionBuilder.ConfusionMatrixBuilder.AddLabel | src/main/java/uk/ac/susx/mlcl/erl/tac/eval/ConfusionMatrixBuilder.java:43-47 | a known label changes nothing. A new label gets the next index, and the next index grows by one |
| ConfusionBuilder.NewLabels | src/main/java/uk/ac/susx/mlcl/erl/tac/eval/ConfusionMatrixBuilder.java:60-64 | the labels of a sequence not yet known, each once: every one comes from the sequence and is new, and every new label of the sequence is among them |
| ConfusionBuilder.ConfusionMatrixBuilder.AddAllLabels | src/main/java/uk/ac/susx/mlcl/erl/tac/eval/ConfusionMatrixBuilder.java:60-64 | afterwards the labels are the old ones plus the given ones and every old label keeps its index; the new labels, in order of first appearance, get consecutive indices from the old next index, which grows by their number |
| ConfusionBuilder.ConfusionMatrixBuilder.AddResults | src/main/java/uk/ac/susx/mlcl/erl/tac/eval/ConfusionMatrixBuilder.java:94-99 | both labels are registered with old indices kept. A positive count is tallied, a zero count adds nothing, and a negative count fails after the labels are registered |
| ConfusionBuilder.ConfusionMatrixBuilder.AddResult | src/main/java/uk/ac/susx/mlcl/erl/tac/eval/ConfusionMatrixBuilder.java:90-92 | registers both labels and tallies the pair once |
| ConfusionBuilder.ConfusionMatrixBuilder.Build | src/main/java/uk/ac/susx/mlcl/erl/tac/eval/ConfusionMatrixBuilder.java:101-163 | with no labels it fails. Otherwise it gives a square array with one row and one column per label, where cell [i][j] is the total count of results with actual label i and predicted label j |
| ConfusionBuilder.ConfusionMatrixBuilder.BuiltCellsSumToTotal | src/main/java/uk/ac/susx/mlcl/erl/tac/eval/ConfusionMatrixBuilder.java:150-156 | the built cells add up to all the occurrences tallied |
| Comparators.ConstantValue | src/main/java/uk/ac/susx/mlcl/lib/Comparators.java:198-213 | LESS answers -1, EQUAL 0 and GREATER 1 |
| Comparators.AlwaysIsConstant | src/main/java/uk/ac/susx/mlcl/lib/Comparators.java:61-87 | a constant comparator gives the same answer, -1, 0 or 1, for every pair of arguments |
| Comparators.ConstantAntisymmetry | src/main/java/uk/ac/susx/mlcl/lib/Comparators.java:55-87 | of the constant comparators, only alwaysEqual is antisymmetric, as the comparator contract requires |
| Comparators.WrappingNegate | src/main/java/uk/ac/susx/mlcl/lib/Comparators.java:246-248 | Java's int negation: the exact negation except for MIN_VALUE, which stays MIN_VALUE |
| Comparators.ReversedAsWrittenKeepsMinValue | src/main/java/uk/ac/susx/mlcl/lib/Comparators.java:238-248 | an antisymmetric delegate that answers MIN_VALUE for (true, false) is reversed, as written, into a comparator that still answers MIN_VALUE and is not antisymmetric |
| Comparators.Negate | src/main/java/uk/ac/susx/mlcl/lib/Comparators.java:246-248 | the sign of the result is always the opposite of the argument's. It is the exact negation except at MIN_VALUE |
| Comparators.ReversedFlipsSign | src/main/java/uk/ac/susx/mlcl/lib/Comparators.java:141-142 | the reversed comparator's answer has the opposite sign of the delegate's |
| Comparators.ReversedAntisymmetric | src/main/java/uk/ac/susx/mlcl/lib/Comparators.java:141-142 | reversing an antisymmetric comparator keeps it antisymmetric |
| Comparators.MappedEqualImages | src/main/java/uk/ac/susx/mlcl/lib/Comparators.java:304-306 | two values with the same image compare equal when the delegate finds an image equal to itself |
| Comparators.MappedAntisymmetric | src/main/java/uk/ac/susx/mlcl/lib/Comparators.java:128-131 | comparing images under any mapping keeps a delegate's antisymmetry |
| Comparators.FirstNonZero | src/main/java/uk/ac/susx/mlcl/lib/Comparators.java:405-411 | the answer is 0 exactly when every child answers 0, and otherwise it is the answer of the first child that answers other than 0 |
| Comparators.ChainCompare | src/main/java/uk/ac/susx/mlcl/lib/Comparators.java:405-411 | the loop asks the children in order while the answer is 0, and gives the chain's answer |
| Comparators.ChainSkipsZeros | src/main/java/uk/ac/susx/mlcl/lib/Comparators.java:405-411 | children answering 0 at the front of the chain do not change its answer |
| Comparators.Chain2Breaks | src/main/java/uk/ac/susx/mlcl/lib/Comparators.java:171-173 | chain(child1, child2) gives child1's answer, and child2's when child1 answers 0 |
| Comparators.ChainAntisymmetric | src/main/java/uk/ac/susx/mlcl/lib/Comparators.java:183-185 | a chain of antisymmetric comparators is antisymmetric |
| Comparators.CheckProbabilities | src/main/java/uk/ac/susx/mlcl/lib/Comparators.java:340-352 | the constructor accepts exactly probabilities in [0, 1] whose sum is at most 1, and reports the first check that fails |
| Comparators.RandomCompare | src/main/java/uk/ac/susx/mlcl/lib/Comparators.java:355-362 | answers -1 exactly for a draw below P(<), otherwise 1 exactly for a draw above 1 - P(>), and 0 otherwise |
| Comparators.RandomBands | src/main/java/uk/ac/susx/mlcl/lib/Comparators.java:340-362 | with valid probabilities and a draw in [0, 1), the answer is 1 exactly above 1 - P(>) and 0 exactly between P(<) and 1 - P(>) |
| AliasMapping.Chase | src/main/java/uk/ac/susx/mlcl/erl/linker/AliasMappingGenerator.java:42-53 | the chase extends the path along the alias map, keeping it free of repeats, until the last alias has no entry or maps back onto the path |
| AliasMapping.ChasedUnique | src/main/java/uk/ac/susx/mlcl/erl/linker/AliasMappingGenerator.java:42-53 | two finished chases from the same mention are the same path, so the chase is determined by the map |
| AliasMapping.Resolve | src/main/java/uk/ac/susx/mlcl/erl/linker/AliasMappingGenerator.java:39-53 | the chase from a mention is a finished chase starting at that mention |
| AliasMapping.UnionOverMembers | src/main/java/uk/ac/susx/mlcl/erl/linker/AliasMappingGenerator.java:57-59 | a candidate is in the union over a path exactly when the delegate gives it for some element of the path |
| AliasMapping.RecursiveNoLoop | src/main/java/uk/ac/susx/mlcl/erl/linker/AliasMappingGenerator.java:46-60 | in recursive mode, a chase ending at an alias without an entry answers the delegate's candidates for that alias |
| AliasMapping.RecursiveLoop | src/main/java/uk/ac/susx/mlcl/erl/linker/AliasMappingGenerator.java:46-60 | in recursive mode, a chase ending in a loop answers the union of the delegate's candidates over every alias of the loop |
| AliasMapping.NonRecursive | src/main/java/uk/ac/susx/mlcl/erl/linker/AliasMappingGenerator.java:61-65 | in plain mode, a mapped mention answers just its alias and an unmapped one the delegate's candidates |
| AliasMapping.FindCandidates | src/main/java/uk/ac/susx/mlcl/erl/linker/AliasMappingGenerator.java:36-66 | the result is the candidates the alias generator promises for the mention |
| AliasMapping.ChaseAliases | src/main/java/uk/ac/susx/mlcl/erl/linker/AliasMappingGenerator.java:39-53 | the seen stack is the chase from the mention. Without a loop the query is its last alias, which has no entry. With a loop the query is that alias's alias, which is already on the stack |
| AliasMapping.PopCandidates | src/main/java/uk/ac/susx/mlcl/erl/linker/AliasMappingGenerator.java:56-59 | popping the stack down to the query collects the delegate's candidates for every alias from the query's position to the top |
| AliasMapping.UnionOverCons | src/main/java/uk/ac/susx/mlcl/erl/linker/AliasMappingGenerator.java:57-59 | the union over a path with one more element in front adds that element's candidates |
| AliasMapping.BatchFindCandidates | src/main/java/uk/ac/susx/mlcl/erl/linker/AliasMappingGenerator.java:68-75 | the map has exactly the queries as keys, each with its candidates |
| GeneratorCollection.FirstNonEmpty | src/main/java/uk/ac/susx/mlcl/erl/linker/GeneratorCollection.java:37-47 | FIRST answers empty exactly when every child does, and otherwise the answer of the first child with a non-empty answer |
| GeneratorCollection.Meet | src/main/java/uk/ac/susx/mlcl/erl/linker/GeneratorCollection.java:51-67 | INTERSECTION answers exactly the candidates every child gives, and nothing when there are no children |
| GeneratorCollection.Join | src/main/java/uk/ac/susx/mlcl/erl/linker/GeneratorCollection.java:72-80 | UNION answers exactly the candidates some child gives |
| GeneratorCollection.MeetWithinEach | src/main/java/uk/ac/susx/mlcl/erl/linker/GeneratorCollection.java:51-67 | the intersection lies within each child's answer |
| GeneratorCollection.CandidatesFromChildren | src/main/java/uk/ac/susx/mlcl/erl/linker/GeneratorCollection.java:115-119 | whatever the aggregation, every candidate comes from some child |
| GeneratorCollection.FindFirst | src/main/java/uk/ac/susx/mlcl/erl/linker/GeneratorCollection.java:37-47 | the loop gives the first non-empty child answer, or the empty set |
| GeneratorCollection.FirstAfterEmpty | src/main/java/uk/ac/susx/mlcl/erl/linker/GeneratorCollection.java:40-44 | after children that answer empty, the first child with an answer decides |
| GeneratorCollection.FindIntersection | src/main/java/uk/ac/susx/mlcl/erl/linker/GeneratorCollection.java:51-67 | the loop, with its early exit on an empty intersection, gives the intersection of all children |
| GeneratorCollection.MeetEmptyStaysEmpty | src/main/java/uk/ac/susx/mlcl/erl/linker/GeneratorCollection.java:61-62 | the intersection of all children lies within that of any non-empty prefix, so an empty prefix result may return at once |
| GeneratorCollection.FindUnion | src/main/java/uk/ac/susx/mlcl/erl/linker/GeneratorCollection.java:72-80 | the loop gives the union of all children |
| GeneratorCollection.FindCandidates | src/main/java/uk/ac/susx/mlcl/erl/linker/GeneratorCollection.java:115-119 | the result is the candidates of the collection's aggregation method over its children |
| GeneratorCollection.BatchFindCandidates | src/main/java/uk/ac/susx/mlcl/erl/linker/GeneratorCollection.java:121-128 | the map has exactly the queries as keys, each with its candidates |
| GeneratorCollection.Builder.constructor | src/main/java/uk/ac/susx/mlcl/erl/linker/GeneratorCollection.java:148-151 | a new builder has no children and the default aggregation FIRST |
| GeneratorCollection.Builder.SetAggregationMethod | src/main/java/uk/ac/susx/mlcl/erl/linker/GeneratorCollection.java:153-157 | sets the aggregation and keeps the children |
| GeneratorCollection.Builder.AddChild | src/main/java/uk/ac/susx/mlcl/erl/linker/GeneratorCollection.java:159-163 | appends one child and keeps the aggregation |
| GeneratorCollection.Builder.AddChildren | src/main/java/uk/ac/susx/mlcl/erl/linker/GeneratorCollection.java:165-181 | appends the children in order and keeps the aggregation |
| GeneratorCollection.Builder.Build | src/main/java/uk/ac/susx/mlcl/erl/linker/GeneratorCollection.java:183-186 | the collection holds the children added, in order, with the aggregation set |
| GeneratorCollection.BuildDefault | src/main/java/uk/ac/susx/mlcl/erl/linker/GeneratorCollection.java:144-186 | a collection built without setting the aggregation answers the first non-empty child answer |
| RandomRanker.Swap | src/main/java/uk/ac/susx/mlcl/erl/linker/RandomRanker.java:83-89 | exchanges the two positions, leaves all others alone, keeps the same elements, and changes nothing when the positions are equal |
| RandomRanker.ShuffleFromStep | src/main/java/uk/ac/susx/mlcl/erl/linker/RandomRanker.java:66-69 | the first swap drawn stays within the list, and the shuffle carries on from the swapped list |
| RandomRanker.ShuffleFromPermutes | src/main/java/uk/ac/susx/mlcl/erl/linker/RandomRanker.java:66-69 | the shuffle from any position keeps the same elements |
| RandomRanker.ShufflePermutes | src/main/java/uk/ac/susx/mlcl/erl/linker/RandomRanker.java:60-71 | the ranking is a permutation of the candidates |
| RandomRanker.ShuffleFromKeepsPrefix | src/main/java/uk/ac/susx/mlcl/erl/linker/RandomRanker.java:66-69 | positions already passed are not touched again |
| RandomRanker.FirstRankedIsDrawn | src/main/java/uk/ac/susx/mlcl/erl/linker/RandomRanker.java:66-68 | the first candidate ranked is the one drawn by the first nextInt |
| RandomRanker.ZeroDrawsKeepOrder | src/main/java/uk/ac/susx/mlcl/erl/linker/RandomRanker.java:66-69 | if every draw is 0 the ranking keeps the input order |
| RandomRanker.SwapIn | src/main/java/uk/ac/susx/mlcl/erl/linker/RandomRanker.java:83-89 | the list afterwards is the old list with the two positions exchanged |
| RandomRanker.RankCandidates | src/main/java/uk/ac/susx/mlcl/erl/linker/RandomRanker.java:60-71 | the ranking is the Fisher-Yates shuffle of a copy of the candidates driven by the draws, and a permutation of them |
| EntityLinking.RunEnd | src/main/java/eu/ac/susx/mlcl/erl/linker/EntityLinkingAnnotator.java:157-161 | the run's end lies between the inner loop's start and the end of the sentence |
| EntityLinking.RunEndSpec | src/main/java/eu/ac/susx/mlcl/erl/linker/EntityLinkingAnnotator.java:157-161 | every token of the run carries the first token's label, and the token just after the run, if any, carries another |
| EntityLinking.RunsPartition | src/main/java/eu/ac/susx/mlcl/erl/linker/EntityLinkingAnnotator.java:154-168 | the runs are non-empty, consecutive and cover the sentence from the first position to its end |
| EntityLinking.RunsHomogeneous | src/main/java/eu/ac/susx/mlcl/erl/linker/EntityLinkingAnnotator.java:154-168 | each run is a stretch of one label |
| EntityLinking.RunsSeparated | src/main/java/eu/ac/susx/mlcl/erl/linker/EntityLinkingAnnotator.java:154-168 | two neighbouring runs have different labels, so each run is maximal |
| EntityLinking.RunsInside | src/main/java/eu/ac/susx/mlcl/erl/linker/EntityLinkingAnnotator.java:154-168 | every run starts inside the sentence |
| EntityLinking.MentionsAreRuns | src/main/java/eu/ac/susx/mlcl/erl/linker/EntityLinkingAnnotator.java:163-165 | every mention is a run of its sentence whose label is not "O" |
| EntityLinking.RunsAreMentions | src/main/java/eu/ac/susx/mlcl/erl/linker/EntityLinkingAnnotator.java:163-165 | every run whose label is not "O" is a mention |
| EntityLinking.FindMentions | src/main/java/eu/ac/susx/mlcl/erl/linker/EntityLinkingAnnotator.java:145-171 | the mentions are those of every sentence in order, each sentence's being its runs not labelled "O" |
| EntityLinking.SentenceMentions | src/main/java/eu/ac/susx/mlcl/erl/linker/EntityLinkingAnnotator.java:149-168 | the loop over one sentence gives its runs not labelled "O", in order |
| EntityLinking.RunStep | src/main/java/eu/ac/susx/mlcl/erl/linker/EntityLinkingAnnotator.java:149-168 | one pass of the outer loop: the run from a position ends where the inner loop stops, and its mention, if its label is not "O", precedes the mentions of the later runs |
| EntityLinking.SurfaceFormOffByOne | src/main/java/eu/ac/susx/mlcl/erl/linker/EntityLinkingAnnotator.java:187-189 | as written, "Obama" at offsets 0 to 5 of "Obama spoke" reads as "Obama " and a mention at the very end of the text falls back to the joined token texts. The corrected surface form reads "Obama" and "Barack Obama" |
| EntityLinking.SurfaceFormIsText | src/main/java/eu/ac/susx/mlcl/erl/linker/EntityLinkingAnnotator.java:180-207 | when the text holds the mention's offsets, the surface form is exactly the text between the first token's begin and the last token's end, and has that length |
| EntityLinking.MentionsInDocument | src/main/java/eu/ac/susx/mlcl/erl/linker/EntityLinkingAnnotator.java:145-171 | every mention found is a non-empty stretch of one sentence of the document |
| EntityLinking.GroupsKeys | src/main/java/eu/ac/susx/mlcl/erl/linker/EntityLinkingAnnotator.java:88-101 | in either reading of the surface form (the code's or the exact text), the queries are exactly the surface texts of the mentions |
| EntityLinking.GroupsValues | src/main/java/eu/ac/susx/mlcl/erl/linker/EntityLinkingAnnotator.java:88-101 | in either reading, a query holds the token positions of every mention with that surface text, in mention order |
| EntityLinking.PositionsWithTextEmpty | src/main/java/eu/ac/susx/mlcl/erl/linker/EntityLinkingAnnotator.java:88-101 | in either reading, a text no mention has holds no positions |
| EntityLinking.PositionsAgree | src/main/java/eu/ac/susx/mlcl/erl/linker/EntityLinkingAnnotator.java:88-101 | when two mentions share a surface text in one reading exactly when they share it in the other, the positions grouped under a mention's text are the same in both readings |
| EntityLinking.GroupingsAgree | src/main/java/eu/ac/susx/mlcl/erl/linker/EntityLinkingAnnotator.java:88-101 | under that condition the two groupings have matching queries, a mention's as-written text being a query exactly when its exact text is one, with the same positions |
| EntityLinking.ObamaTwice | src/main/java/eu/ac/susx/mlcl/erl/linker/EntityLinkingAnnotator.java:88-101 | as written, "Obama" before a space and "Obama" before a full stop are two queries, "Obama " and "Obama."; with the exact text they are one query holding both positions |
| EntityLinking.GroupMentions | src/main/java/eu/ac/susx/mlcl/erl/linker/EntityLinkingAnnotator.java:88-101 | the loop builds the grouping of the mentions' tokens by the surface form as the code computes it |
| EntityLinking.GroupsOfTwo | src/main/java/eu/ac/susx/mlcl/erl/linker/EntityLinkingAnnotator.java:88-101 | grouping two mentions: the first one's query holds its positions, and the second one's query then has the second one's positions appended to what it held |
| EntityLinking.TwoApart | src/main/java/eu/ac/susx/mlcl/erl/linker/EntityLinkingAnnotator.java:88-101 | two mentions with different queries give two queries, each holding its own mention's positions |
| EntityLinking.TwoTogether | src/main/java/eu/ac/susx/mlcl/erl/linker/EntityLinkingAnnotator.java:88-101 | two mentions with the same query give one query holding the first mention's positions followed by the second's |
| EntityLinking.ChosenId | src/main/java/eu/ac/susx/mlcl/erl/linker/EntityLinkingAnnotator.java:119-123 | the id is the top-ranked candidate, or "/NIL" when there is none |
| EntityLinking.AssignIds | src/main/java/eu/ac/susx/mlcl/erl/linker/EntityLinkingAnnotator.java:110-129 | a token gets an id only if its query has a search result, and then the id chosen from the ranked candidates. Every token of a query with a result gets one |
| EntityLinking.Annotate | src/main/java/eu/ac/susx/mlcl/erl/linker/EntityLinkingAnnotator.java:80-136 | every token of a mention whose surface form, as the code computes it, has a search result gets the top-ranked id, or "/NIL", and no other token gets one |
| JsonUtil.Extend | core/src/main/java/io/github/hamishmorgan/erl/JsonUtil.java:60-73 | after one step the last chunk is non-empty and ends with the new token |
| JsonUtil.Chunks | core/src/main/java/io/github/hamishmorgan/erl/JsonUtil.java:48-79 | there are no chunks exactly when there are no tokens |
| JsonUtil.FlattenAppend | core/src/main/java/io/github/hamishmorgan/erl/JsonUtil.java:48-79 | flattening distributes over concatenation of chunk lists |
| JsonUtil.ExtendFlatten | core/src/main/java/io/github/hamishmorgan/erl/JsonUtil.java:64-71 | a chunking step keeps every token, in order, and adds the new one at the end |
| JsonUtil.ExtendWellChunked | core/src/main/java/io/github/hamishmorgan/erl/JsonUtil.java:60-73 | a chunking step keeps the chunks non-empty, of one key each, with different keys in neighbouring chunks |
| JsonUtil.ChunksFlatten | core/src/main/java/io/github/hamishmorgan/erl/JsonUtil.java:48-79 | the chunks hold exactly the tokens, in order |
| JsonUtil.ChunksWellChunked | core/src/main/java/io/github/hamishmorgan/erl/JsonUtil.java:48-79 | every chunk is non-empty and of one (id, type) key, and neighbouring chunks differ in key, so the chunks are maximal |
| JsonUtil.ExtendLast | core/src/main/java/io/github/hamishmorgan/erl/JsonUtil.java:60-71 | a token with the key of the last token joins its chunk, and any other token opens a new chunk |
| JsonUtil.GetEntityChunks | core/src/main/java/io/github/hamishmorgan/erl/JsonUtil.java:48-79 | the loop gives the chunks of the tokens |
| JsonUtil.PrefixedAssoc | core/src/main/java/io/github/hamishmorgan/erl/JsonUtil.java:96-121 | writing pieces in front is associative and writing none changes nothing |
| JsonUtil.PiecesFromStep | core/src/main/java/io/github/hamishmorgan/erl/JsonUtil.java:100-116 | an empty chunk is skipped. A chunk outside the text fails. Otherwise the gap before the chunk, then the chunk with its first token's id and type, are written before the rest |
| JsonUtil.OrderedTail | core/src/main/java/io/github/hamishmorgan/erl/JsonUtil.java:100-116 | the chunks after the first are still in order from the first chunk's end |
| JsonUtil.TextsAppend | core/src/main/java/io/github/hamishmorgan/erl/JsonUtil.java:96-121 | the text of concatenated pieces is the concatenation of their texts |
| JsonUtil.PiecesReconstructText | core/src/main/java/io/github/hamishmorgan/erl/JsonUtil.java:96-121 | for ordered chunks inside the text, writing succeeds, and the piece texts put together are exactly the text from the starting point on |
| JsonUtil.GapPieceText | core/src/main/java/io/github/hamishmorgan/erl/JsonUtil.java:110-115 | a gap piece, a chunk piece and the rest put together give the text from the previous end on |
| JsonUtil.ExtendOrdered | core/src/main/java/io/github/hamishmorgan/erl/JsonUtil.java:60-73 | a chunking step on tokens in text order keeps the chunks in text order |
| JsonUtil.ChunksOrdered | core/src/main/java/io/github/hamishmorgan/erl/JsonUtil.java:48-79 | tokens in text order give chunks in text order, the last ending where the last token ends |
| JsonUtil.AnnotationCoversText | core/src/main/java/io/github/hamishmorgan/erl/JsonUtil.java:83-121 | for tokens in text order the pieces cover the document text exactly, with nothing lost, repeated or reordered, and the conversion succeeds |
| JsonUtil.WriteEntityChunks | core/src/main/java/io/github/hamishmorgan/erl/JsonUtil.java:96-121 | the loop writes the pieces of the chunks, gaps included, and a trailing piece up to the end of the text; a chunk outside the text fails |
| JsonUtil.XmlEncodeAppend | core/src/main/java/io/github/hamishmorgan/erl/JsonUtil.java:146-190 | the escaping of a concatenation is the concatenation of the escapings |
| JsonUtil.XmlEncodeIdentity | core/src/main/java/io/github/hamishmorgan/erl/JsonUtil.java:163-166 | a string without '<', '>' or '&' is returned unchanged |
| JsonUtil.XmlEncodeSafe | core/src/main/java/io/github/hamishmorgan/erl/JsonUtil.java:168-189 | the escaped string holds no '<' or '>', and every '&' in it begins an escape |
| JsonUtil.DecodeEscape | core/src/main/java/io/github/hamishmorgan/erl/JsonUtil.java:173-185 | decoding undoes the escape of one character |
| JsonUtil.XmlDecodeEncode | core/src/main/java/io/github/hamishmorgan/erl/JsonUtil.java:146-190 | decoding the escaped string gives back the original, so escaping loses nothing |
| JsonUtil.FirstSpecial | core/src/main/java/io/github/hamishmorgan/erl/JsonUtil.java:150-161 | the search stops at the first special character, or the end of the input |
| JsonUtil.XmlEncodeMethod | core/src/main/java/io/github/hamishmorgan/erl/JsonUtil.java:146-190 | the two loops, the search and the copy with escapes, give the escaping of the input |
| JsonUtil.ToJsonObject | core/src/main/java/io/github/hamishmorgan/erl/JsonUtil.java:123-143 | the object holds the escaped text, the id and type, and a URL exactly when there is an id, namely the Freebase view prefix followed by the id |
| JsonUtil.EmptyDocument | core/src/main/java/io/github/hamishmorgan/erl/JsonUtil.java:83-121 | an empty document with no tokens is an empty array |
| JsonUtil.EntityAfterGap | core/src/main/java/io/github/hamishmorgan/erl/JsonUtil.java:104-116 | a chunk after the start of the text is preceded by a plain piece with the text before it, and is written with its text, id and type |
| AnnotationService.NoSentencesNeedsAll | src/main/java/uk/ac/susx/mlcl/erl/AnnotationService.java:196-201 | a document without sentences (and with tokens or text) needs ssplit, pos, ner and el |
| AnnotationService.SentencesDecideSteps | src/main/java/uk/ac/susx/mlcl/erl/AnnotationService.java:179-194 | with tokens in its sentences, a document is not split or tokenized again; el is needed iff no token has an entity id, ner iff el is and no token has an entity tag, pos iff ner is and no token has a part-of-speech tag |
| AnnotationService.EmptySentencesNeedNothing | src/main/java/uk/ac/susx/mlcl/erl/AnnotationService.java:179-185 | sentences without any token need no step at all |
| AnnotationService.TokenizeRule | src/main/java/uk/ac/susx/mlcl/erl/AnnotationService.java:204-214 | the document is refused exactly when it has no sentences, no tokens and no text; otherwise tokenize is needed iff ssplit is and there are no document tokens |
| AnnotationService.PlanIsChained | src/main/java/uk/ac/susx/mlcl/erl/AnnotationService.java:186-201 | pos is needed only with ner, ner only with el, and tokenize only with ssplit |
| AnnotationService.LinkedDocumentNeedsNothing | src/main/java/uk/ac/susx/mlcl/erl/AnnotationService.java:186-194 | a document one of whose tokens already carries an entity id needs no step |
| AnnotationService.StepsInOrder | src/main/java/uk/ac/susx/mlcl/erl/AnnotationService.java:223-233 | the pipeline holds exactly the required steps, each once, in the order tokenize, ssplit, pos, ner, el |
| AnnotationService.ScanTokens | src/main/java/uk/ac/susx/mlcl/erl/AnnotationService.java:165-177 | the scan reports no tokens iff the sentences hold none, and each "contains" flag iff some token has that annotation |
| AnnotationService.Link | src/main/java/uk/ac/susx/mlcl/erl/AnnotationService.java:147-233 | the method refuses a document exactly as the plan does and otherwise adds the plan's steps, in order |
| CharacterShape.CategoryRoundTrip | core/src/main/java/io/github/hamishmorgan/erl/snlp/annotators/CharacterShapeAnnotator.java:205-248 | every general category has one type code, which maps back to it |
| CharacterShape.TypeCodeRoundTrip | core/src/main/java/io/github/hamishmorgan/erl/snlp/annotators/CharacterShapeAnnotator.java:205-248 | a type code the switch knows is the code of its category |
| CharacterShape.ReplacementClasses | core/src/main/java/io/github/hamishmorgan/erl/snlp/annotators/CharacterShapeAnnotator.java:205-243 | each category is replaced by one of the seven shape characters, and each shape character is used for exactly the categories listed with it in the switch |
| CharacterShape.ReplacementForCodePoint | core/src/main/java/io/github/hamishmorgan/erl/snlp/annotators/CharacterShapeAnnotator.java:205-248 | the replacement fails exactly when the type of the code point is outside the table (the AssertionError), and is otherwise the shape character of its category |
| CharacterShape.EveryCategoryReplaced | core/src/main/java/io/github/hamishmorgan/erl/snlp/annotators/CharacterShapeAnnotator.java:205-243 | a code point whose type is a known category always has a replacement |
| CharacterShape.CodePointAt | core/src/main/java/io/github/hamishmorgan/erl/snlp/annotators/CharacterShapeAnnotator.java:188-189 | the code point at a unit is a valid code point; it is supplementary exactly when a high surrogate is followed by a low surrogate, and otherwise it is the unit itself |
| CharacterShape.CodePoints | core/src/main/java/io/github/hamishmorgan/erl/snlp/annotators/CharacterShapeAnnotator.java:188-192 | there are never more code points than code units |
| CharacterShape.NoSurrogatesOnePerUnit | core/src/main/java/io/github/hamishmorgan/erl/snlp/annotators/CharacterShapeAnnotator.java:188-192 | a string without high surrogates has one code point per unit, equal to it |
| CharacterShape.CodePointsOfEncode | core/src/main/java/io/github/hamishmorgan/erl/snlp/annotators/CharacterShapeAnnotator.java:188-192 | decoding the UTF-16 encoding of valid code points gives them back |
| CharacterShape.MapAllOk | core/src/main/java/io/github/hamishmorgan/erl/snlp/annotators/CharacterShapeAnnotator.java:188-192 | mapping every code point succeeds iff each one succeeds |
| CharacterShape.MapAllValue | core/src/main/java/io/github/hamishmorgan/erl/snlp/annotators/CharacterShapeAnnotator.java:188-192 | a successful mapping has one result per code point, each the single result for that code point |
| CharacterShape.CodePointsStep | core/src/main/java/io/github/hamishmorgan/erl/snlp/annotators/CharacterShapeAnnotator.java:188-192 | the step of the loop, by Character.charCount, stays inside the input and moves past exactly one code point |
| CharacterShape.ShapeSpec | core/src/main/java/io/github/hamishmorgan/erl/snlp/annotators/CharacterShapeAnnotator.java:184-194 | a shape exists iff every code point has a known category; it then has one character per code point, each the replacement of that code point's category |
| CharacterShape.ShapeFromStep | core/src/main/java/io/github/hamishmorgan/erl/snlp/annotators/CharacterShapeAnnotator.java:188-192 | one loop step fails with the code point's error or appends its replacement |
| CharacterShape.Shape | core/src/main/java/io/github/hamishmorgan/erl/snlp/annotators/CharacterShapeAnnotator.java:184-192 | the code-point loop computes the shape of the input |
| CharacterShape.ShapeExampleBn2 | core/src/main/java/io/github/hamishmorgan/erl/snlp/annotators/CharacterShapeAnnotator.java:205-225 | "BN2" has the shape "AA#" |
| CharacterShape.ShapeExampleEuro | core/src/main/java/io/github/hamishmorgan/erl/snlp/annotators/CharacterShapeAnnotator.java:205-218 | the euro sign followed by "30" has the shape "$##" |
| CharacterShape.ParseBoolean | core/src/main/java/io/github/hamishmorgan/erl/snlp/annotators/CharacterShapeAnnotator.java:100-102 | a property value is true exactly when it is "true" in any mix of upper and lower case |
| CharacterShape.ShapedTokensSpec | core/src/main/java/io/github/hamishmorgan/erl/snlp/annotators/CharacterShapeAnnotator.java:178-195 | on success every token keeps its text and lemma and gets the shape of its lemma, or its text, as configured |
| CharacterShape.ShapedFromStep | core/src/main/java/io/github/hamishmorgan/erl/snlp/annotators/CharacterShapeAnnotator.java:178-195 | one token step fails on a missing input or a failed shape, and otherwise adds the shaped token |
| CharacterShape.CharacterShapeAnnotator.constructor | core/src/main/java/io/github/hamishmorgan/erl/snlp/annotators/CharacterShapeAnnotator.java:75-77 | a new annotator does not use lemmas |
| CharacterShape.CharacterShapeAnnotator.Configure | core/src/main/java/io/github/hamishmorgan/erl/snlp/annotators/CharacterShapeAnnotator.java:97-103 | the lemmaUsed property, when present, sets the flag to its boolean value, and otherwise the flag is kept |
| CharacterShape.CharacterShapeAnnotator.SetLemmaUsed | core/src/main/java/io/github/hamishmorgan/erl/snlp/annotators/CharacterShapeAnnotator.java:146-148 | the flag takes the given value |
| CharacterShape.CharacterShapeAnnotator.RequiredAnnotations | core/src/main/java/io/github/hamishmorgan/erl/snlp/annotators/CharacterShapeAnnotator.java:116-127 | tokens are always required, and lemmas exactly when lemmas are used |
| CharacterShape.CharacterShapeAnnotator.Annotate | core/src/main/java/io/github/hamishmorgan/erl/snlp/annotators/CharacterShapeAnnotator.java:168-196 | a document without tokens, or without lemmas when lemmas are used, is refused; otherwise the tokens are shaped |
| AnnotationToXml.LowerFirst | src/main/java/uk/ac/susx/mlcl/erl/xml/AnnotationToXML.java:724-727 | only the first character changes; it is then not upper case, and it either was upper case or is kept |
| AnnotationToXml.SimplifiedParts | src/main/java/uk/ac/susx/mlcl/erl/xml/AnnotationToXML.java:713-727 | there is one non-empty simplified part per part of the class name, each with its suffixes stripped and its first letter lowered |
| AnnotationToXml.PartsUsed | src/main/java/uk/ac/susx/mlcl/erl/xml/AnnotationToXML.java:711-735 | the do-while stops at the fewest last parts whose joined name is free, or once every part is used, and every shorter name before that is taken |
| AnnotationToXml.CandidateInjective | src/main/java/uk/ac/susx/mlcl/erl/xml/AnnotationToXML.java:741-749 | different numbers give different numbered names |
| AnnotationToXml.NotYetTried | src/main/java/uk/ac/susx/mlcl/erl/xml/AnnotationToXML.java:745-749 | a number's name is not among the names of the smaller numbers tried before it |
| AnnotationToXml.TriedGrows | src/main/java/uk/ac/susx/mlcl/erl/xml/AnnotationToXML.java:745-749 | each taken numbered name that is tried leaves fewer taken names untried, so the numbering loop ends |
| AnnotationToXml.FreeNumber | src/main/java/uk/ac/susx/mlcl/erl/xml/AnnotationToXML.java:741-749 | the numbering loop stops at a number, no smaller than where it started, whose name is free |
| AnnotationToXml.FreeNumberLeast | src/main/java/uk/ac/susx/mlcl/erl/xml/AnnotationToXML.java:745-749 | every number tried before the free one is taken, so the free number is the first free one |
| AnnotationToXml.Numbered | src/main/java/uk/ac/susx/mlcl/erl/xml/AnnotationToXML.java:737-750 | the numbered name is not among the existing names |
| AnnotationToXml.SimplifiedNameAsWritten | src/main/java/uk/ac/susx/mlcl/erl/xml/AnnotationToXML.java:687-753 | the name the code returns is not among the existing names |
| AnnotationToXml.SimplifiedName | src/main/java/uk/ac/susx/mlcl/erl/xml/AnnotationToXML.java:687-753 | the corrected name is not among the existing names either |
| AnnotationToXml.StripSuffixesKeepsPrefix | src/main/java/uk/ac/susx/mlcl/erl/xml/AnnotationToXML.java:716-722 | stripping suffixes leaves a non-empty prefix of the part |
| AnnotationToXml.StripSuffixesIdentity | src/main/java/uk/ac/susx/mlcl/erl/xml/AnnotationToXML.java:716-722 | a part that ends with no suffix longer than itself is kept as it is |
| AnnotationToXml.StripOneSuffix | src/main/java/uk/ac/susx/mlcl/erl/xml/AnnotationToXML.java:717-720 | a suffix strictly shorter than the part is removed, and putting it back gives the part |
| AnnotationToXml.LastStep | src/main/java/uk/ac/susx/mlcl/erl/xml/AnnotationToXML.java:729-732 | one more part is put in front of the name, followed by a dot |
| AnnotationToXml.LastOne | src/main/java/uk/ac/susx/mlcl/erl/xml/AnnotationToXML.java:713-732 | the first name tried is the last simplified part |
| AnnotationToXml.PartsUsedIs | src/main/java/uk/ac/susx/mlcl/erl/xml/AnnotationToXML.java:711-735 | the number of parts the loop uses is the first count whose name is free, or all of them |
| AnnotationToXml.NoNumberWhileFree | src/main/java/uk/ac/susx/mlcl/erl/xml/AnnotationToXML.java:711-750 | when the full simplified name is free, the corrected name is the shortest free name made of the last parts, with no number |
| AnnotationToXml.NumberedWhenAllTaken | src/main/java/uk/ac/susx/mlcl/erl/xml/AnnotationToXML.java:737-750 | when every name made of the last parts is taken, the full name gets ".n" for the first free n from 2 on |
| AnnotationToXml.AsWrittenDiffers | src/main/java/uk/ac/susx/mlcl/erl/xml/AnnotationToXML.java:735-737 | the code and the corrected name disagree exactly when every part is used and the full name is free |
| AnnotationToXml.FooParts | src/main/java/uk/ac/susx/mlcl/erl/xml/AnnotationToXML.java:713-727 | the class Foo in the default package simplifies to the single part "foo" |
| AnnotationToXml.AsWrittenNumbersFreeName | src/main/java/uk/ac/susx/mlcl/erl/xml/AnnotationToXML.java:735-750 | with no existing names, the code names the class Foo "foo.2", while the corrected name is "foo" |
| AnnotationToXml.TokensAnnotationParts | src/main/java/uk/ac/susx/mlcl/erl/xml/AnnotationToXML.java:716-727 | with the suffix "Annotation", the class TokensAnnotation simplifies to the part "tokens" |
| AnnotationToXml.StripExample | src/main/java/uk/ac/susx/mlcl/erl/xml/AnnotationToXML.java:687-753 | the simplified name of TokensAnnotation with the suffix "Annotation" and no existing names is "tokens" |
| AnnotationToXml.StripAll | src/main/java/uk/ac/susx/mlcl/erl/xml/AnnotationToXML.java:716-722 | the suffix loop computes the stripped part |
| AnnotationToXml.SimplifyPart | src/main/java/uk/ac/susx/mlcl/erl/xml/AnnotationToXML.java:713-727 | the part loop body strips the suffixes and lowers the first letter |
| AnnotationToXml.PrependParts | src/main/java/uk/ac/susx/mlcl/erl/xml/AnnotationToXML.java:710-735 | the do-while builds the name from the parts it uses and leaves the index just before them |
| AnnotationToXml.NumberName | src/main/java/uk/ac/susx/mlcl/erl/xml/AnnotationToXML.java:741-749 | the numbering loop computes the first free numbered name |
| AnnotationToXml.SimplifiedNameAsWrittenMethod | src/main/java/uk/ac/susx/mlcl/erl/xml/AnnotationToXML.java:687-753 | the method as written computes the as-written name |
| AnnotationToXml.SimplifiedNameMethod | src/main/java/uk/ac/susx/mlcl/erl/xml/AnnotationToXML.java:687-753 | the corrected method computes the corrected name, which is free |
| AnnotationToXml.NamerFresh | src/main/java/uk/ac/susx/mlcl/erl/xml/AnnotationToXML.java:569-578 | the naming build uses, the code's simplified name, always gives a name not yet used, whatever the suffix order |
| AnnotationToXml.NameStep | src/main/java/uk/ac/susx/mlcl/erl/xml/AnnotationToXML.java:569-578 | one candidate of the build loop: a named class keeps the map, an unnamed one gets the code's simplified name, and the names stay distinct |
| AnnotationToXml.SuffixOrderMatters | src/main/java/uk/ac/susx/mlcl/erl/xml/AnnotationToXML.java:715-722 | with the suffixes "Annotation" and "ation", "FooAnnotation" strips to "Foo" in one iteration order and to "FooAnnot" in the other |
| AnnotationToXml.StripAnnotationFirst | src/main/java/uk/ac/susx/mlcl/erl/xml/AnnotationToXML.java:715-722 | trying "Annotation" before "ation" strips "FooAnnotation" to "Foo" |
| AnnotationToXml.StripAtionFirst | src/main/java/uk/ac/susx/mlcl/erl/xml/AnnotationToXML.java:715-722 | trying "ation" before "Annotation" strips "FooAnnotation" to "FooAnnot", which no longer ends in "Annotation" |
| AnnotationToXml.FillNamesKeeps | src/main/java/uk/ac/susx/mlcl/erl/xml/AnnotationToXML.java:569-578 | naming the candidates keeps every name given before and names exactly the old classes and the candidates |
| AnnotationToXml.AddNameInjective | src/main/java/uk/ac/susx/mlcl/erl/xml/AnnotationToXML.java:572-576 | a new class with a name not yet used keeps the names different, as the BiMap requires |
| AnnotationToXml.FillNamesInjective | src/main/java/uk/ac/susx/mlcl/erl/xml/AnnotationToXML.java:569-578 | with a fresh naming, no two classes end up with the same simple name |
| AnnotationToXml.Builder.constructor | src/main/java/uk/ac/susx/mlcl/erl/xml/AnnotationToXML.java:555-561 | a new builder has no roots, no suffixes and no names |
| AnnotationToXml.Builder.AddAnnotationRoot | src/main/java/uk/ac/susx/mlcl/erl/xml/AnnotationToXML.java:596-599 | the root is added to the set of roots and nothing else changes |
| AnnotationToXml.Builder.AddStripSuffix | src/main/java/uk/ac/susx/mlcl/erl/xml/AnnotationToXML.java:612-615 | the suffix is added to the suffix set and nothing else changes |
| AnnotationToXml.Builder.AddSimplifiedName | src/main/java/uk/ac/susx/mlcl/erl/xml/AnnotationToXML.java:617-621 | a name bound to another class is refused and nothing changes; otherwise the class's name is set or replaced |
| AnnotationToXml.Builder.Build | src/main/java/uk/ac/susx/mlcl/erl/xml/AnnotationToXML.java:563-594 | given an iteration order of the suffix set, with annotation roots every candidate without a name gets the code's simplified name for that order, fresh among the names, and the given names are kept; with no roots the names are unchanged |
| T9Sax.TypeValueOf | src/main/java/uk/ac/susx/mlcl/erl/t9kb/T9SaxHandler.java:115 | the type attribute is read as the entity type with exactly that name, and there is none when no type has that name |
| T9Sax.TypeValueOfName | src/main/java/uk/ac/susx/mlcl/erl/t9kb/T9Entity.java:22-30 | every entity type is found again from its name |
| T9Sax.NestedLevels | src/main/java/uk/ac/susx/mlcl/erl/t9kb/T9SaxHandler.java:43-49 | on a stack the handlers push, the handler at depth i is at level i, so the stack holds at most six handlers |
| T9Sax.LevelAt | src/main/java/uk/ac/susx/mlcl/erl/t9kb/T9SaxHandler.java:86-283 | each handler on a well-nested stack sits at its own depth |
| T9Sax.CheckQname | src/main/java/uk/ac/susx/mlcl/erl/t9kb/T9SaxHandler.java:310-318 | the name is accepted iff it equals one of the expected names, ignoring case; otherwise the error names the actual and the expected names |
| T9Sax.Matches | src/main/java/uk/ac/susx/mlcl/erl/t9kb/T9SaxHandler.java:311-315 | the search over the expected names finds a match iff one exists from the given index on |
| T9Sax.QnameOne | src/main/java/uk/ac/susx/mlcl/erl/t9kb/T9SaxHandler.java:310-318 | with one expected name, the check is an equality ignoring case |
| T9Sax.IntersectionCard | src/main/java/uk/ac/susx/mlcl/erl/t9kb/T9SaxHandler.java:302 | fewer common names than required ones means exactly that some required name is missing |
| T9Sax.CheckAttributesAsWritten | src/main/java/uk/ac/susx/mlcl/erl/t9kb/T9SaxHandler.java:285-308 | the code refuses missing required names exactly when one is missing, and refuses unhandled names exactly when there are more names than required and optional ones together |
| T9Sax.CheckAttributes | src/main/java/uk/ac/susx/mlcl/erl/t9kb/T9SaxHandler.java:285-308 | the corrected check refuses missing required names exactly when one is missing, and unhandled names exactly when some name is neither required nor optional |
| T9Sax.SizeCheckWeaker | src/main/java/uk/ac/susx/mlcl/erl/t9kb/T9SaxHandler.java:305-307 | whatever the size check refuses as unhandled, the corrected check refuses too |
| T9Sax.OpenEntityAsWritten | src/main/java/uk/ac/susx/mlcl/erl/t9kb/T9SaxHandler.java:113-118 | as written, an entity opens iff its type is given and known and it has a wiki_title; it then opens as the corrected opening does |
| T9Sax.OpenEntity | src/main/java/uk/ac/susx/mlcl/erl/t9kb/T9SaxHandler.java:113-118 | an entity opens iff its type is given and known; it then has the given id, name, type and title (absent when absent) and no facts yet |
| T9Sax.WikiTitleDifference | src/main/java/uk/ac/susx/mlcl/erl/t9kb/T9Entity.java:198-201 | the code and the corrected opening differ exactly on a valid entity without wiki_title, which Optional.of refuses |
| T9Sax.Build | src/main/java/uk/ac/susx/mlcl/erl/t9kb/T9Entity.java:69-77 | an entity is built iff it has an id and a name (the missing id is reported first), and it then holds everything gathered |
| T9Sax.StartPushesChild | src/main/java/uk/ac/susx/mlcl/erl/t9kb/T9SaxHandler.java:86-253 | in either reading, an accepted start element keeps the handler on top (the entry handler may record the facts class) and pushes that element's handler, one level down |
| T9Sax.RootStart | src/main/java/uk/ac/susx/mlcl/erl/t9kb/T9SaxHandler.java:89-95 | in either reading, the root handler takes only a knowledge_base element, and only without attributes |
| T9Sax.KnowledgeBaseStart | src/main/java/uk/ac/susx/mlcl/erl/t9kb/T9SaxHandler.java:109-119 | as written, the knowledge-base handler takes an entity element with name, id and type, no more names than the four it knows, a known type and a wiki_title |
| T9Sax.EntityNamesFour | src/main/java/uk/ac/susx/mlcl/erl/t9kb/T9SaxHandler.java:111 | the names the knowledge-base handler knows are four |
| T9Sax.KnowledgeBaseStartIntended | src/main/java/uk/ac/susx/mlcl/erl/t9kb/T9SaxHandler.java:109-119 | as intended, it takes an entity element with name, id and type, no other attribute but wiki_title, and a known type |
| T9Sax.EntryStart | src/main/java/uk/ac/susx/mlcl/erl/t9kb/T9SaxHandler.java:139-155 | in either reading, the entry handler takes facts or wiki_text elements, whatever their attributes |
| T9Sax.FactsStart | src/main/java/uk/ac/susx/mlcl/erl/t9kb/T9SaxHandler.java:176-181 | in either reading, the facts handler takes a fact element whose only attribute is its name |
| T9Sax.NameCheckAgrees | src/main/java/uk/ac/susx/mlcl/erl/t9kb/T9SaxHandler.java:302-307 | with one required name and no optional one, the size check is the corrected check |
| T9Sax.EmptyCheckAgrees | src/main/java/uk/ac/susx/mlcl/erl/t9kb/T9SaxHandler.java:302-307 | with no name allowed, the size check is the corrected check |
| T9Sax.FactStart | src/main/java/uk/ac/susx/mlcl/erl/t9kb/T9SaxHandler.java:201-207 | as written, a fact takes link elements with at most one attribute, whatever its name |
| T9Sax.FactStartIntended | src/main/java/uk/ac/susx/mlcl/erl/t9kb/T9SaxHandler.java:201-207 | as intended, a fact takes link elements with at most an entity_id attribute |
| T9Sax.ReadingsAgree | src/main/java/uk/ac/susx/mlcl/erl/t9kb/T9SaxHandler.java:86-253 | the two readings differ only in the knowledge-base and fact handlers: every other handler answers a start element alike |
| T9Sax.LinkWithUnknownAttribute | src/main/java/uk/ac/susx/mlcl/erl/t9kb/T9SaxHandler.java:203 | as written, a link with one "bogus" attribute is accepted inside a fact; as intended it is refused as unhandled |
| T9Sax.LeavesRefuseElements | src/main/java/uk/ac/susx/mlcl/erl/t9kb/T9SaxHandler.java:237-239 | in either reading, no element may start inside a link or the wiki text |
| T9Sax.OpenNested | src/main/java/uk/ac/susx/mlcl/erl/t9kb/T9SaxHandler.java:71-74 | in either reading, an accepted start keeps the stack well nested, one deeper, with the handlers below the top unchanged |
| T9Sax.CloseAccepts | src/main/java/uk/ac/susx/mlcl/erl/t9kb/T9SaxHandler.java:97-100 | the root handler refuses every end element; any other handler accepts exactly its own element's end, and an entity only when it has an id and a name |
| T9Sax.ClosePops | src/main/java/uk/ac/susx/mlcl/erl/t9kb/T9SaxHandler.java:76-79 | an accepted end pops one handler, leaves the stack well nested, changes nothing more than two levels down, passes on an entity iff an entity closes and counts a fact iff a fact closes |
| T9Sax.CloseCountsFacts | src/main/java/uk/ac/susx/mlcl/erl/t9kb/T9SaxHandler.java:157-164 | closing keeps the facts counted: a closed fact joins the entity being read, and a closed entity takes its facts along |
| T9Sax.StartThenEnd | src/main/java/uk/ac/susx/mlcl/erl/t9kb/T9SaxHandler.java:71-79 | in either reading, an element started and at once ended leaves the stack at its old height |
| T9Sax.CharactersKeepKind | src/main/java/uk/ac/susx/mlcl/erl/t9kb/T9SaxHandler.java:217-220 | character data changes only the handler on top and not its kind: a fact keeps it as a part in order, and a link and the wiki text append it |
| T9Sax.SizeCheckAdmitsUnknown | src/main/java/uk/ac/susx/mlcl/erl/t9kb/T9SaxHandler.java:305-307 | an entity whose names are the three required ones and one unknown passes the size check but not the corrected check |
| T9Sax.SizeCheckAdmitsUnknownAttribute | src/main/java/uk/ac/susx/mlcl/erl/t9kb/T9SaxHandler.java:111 | the size check lets an entity with a "bogus" attribute through, and the corrected check refuses it |
| T9Sax.UntitledEntityRefused | src/main/java/uk/ac/susx/mlcl/erl/t9kb/T9SaxHandler.java:133-136 | the code refuses an entity without wiki_title, and the corrected opening gives it no title |
| T9Sax.T9SaxHandler.constructor | src/main/java/uk/ac/susx/mlcl/erl/t9kb/T9SaxHandler.java:46-50 | the stack starts with the root handler alone, with no entries and zero counts |
| T9Sax.T9SaxHandler.StartElement | src/main/java/uk/ac/susx/mlcl/erl/t9kb/T9SaxHandler.java:71-74 | the start element goes to the handler on top, with the checks as written; a refused one changes nothing, and an accepted one leaves the opened stack |
| T9Sax.StartOnStack | src/main/java/uk/ac/susx/mlcl/erl/t9kb/T9SaxHandler.java:71-74 | the stack step of a start element, as written: the result is the opened stack or the top handler's error; an opened stack is well nested and has the same open facts |
| T9Sax.OpenKeepsOpenFacts | src/main/java/uk/ac/susx/mlcl/erl/t9kb/T9SaxHandler.java:71-74 | in either reading, an accepted start element leaves the facts of the entity being read as they were |
| T9Sax.T9SaxHandler.EndElement | src/main/java/uk/ac/susx/mlcl/erl/t9kb/T9SaxHandler.java:76-79 | the end element goes to the handler on top; an accepted one leaves the closed stack, passes on a finished entity and counts closed entities and facts, and a refused one changes nothing |
| T9Sax.T9SaxHandler.Characters | src/main/java/uk/ac/susx/mlcl/erl/t9kb/T9SaxHandler.java:81-84 | the character data goes to the handler on top, and nothing else changes |
| HttpStatus.MakeStatus | src/main/java/uk/ac/susx/mlcl/erl/webapp/HttpStatus.java:713-719 | a status is made iff its code is not negative, and it then keeps its name, code and message |
| HttpStatus.ToString | src/main/java/uk/ac/susx/mlcl/erl/webapp/HttpStatus.java:821-823 | the text form is in brackets and holds at least the message and the padded code |
| HttpStatus.DigitRun | src/main/java/uk/ac/susx/mlcl/erl/webapp/HttpStatus.java:821-823 | the run of leading digits is as long as possible |
| HttpStatus.DigitRunOfDigits | src/main/java/uk/ac/susx/mlcl/erl/webapp/HttpStatus.java:821-823 | digits followed by a non-digit give a run of exactly those digits |
| HttpStatus.ToStringRoundTrip | src/main/java/uk/ac/susx/mlcl/erl/webapp/HttpStatus.java:821-823 | the code and the message can be read back from the text form |
| HttpStatus.ToStringLayout | src/main/java/uk/ac/susx/mlcl/erl/webapp/HttpStatus.java:821-823 | for a code under 1000 the text form is "[", three digits, a space, the message and "]" |
| HttpStatus.LastWithCode | src/main/java/uk/ac/susx/mlcl/erl/webapp/HttpStatus.java:853-867 | the index found is the last status defined with the code, and there is none when no status has it |
| HttpStatus.LastWins | src/main/java/uk/ac/susx/mlcl/erl/webapp/HttpStatus.java:983-988 | every code in the map is the code of some status |
| HttpStatus.LastWinsLookup | src/main/java/uk/ac/susx/mlcl/erl/webapp/HttpStatus.java:853-867 | a code is in the map iff some status has it, and it then maps to the last status defined with it |
| HttpStatus.InitCodeMap | src/main/java/uk/ac/susx/mlcl/erl/webapp/HttpStatus.java:983-988 | building the map fails iff two statuses share a code, naming such a code; otherwise it is the map of each code to its status |
| HttpStatus.ValueOfAsWritten | src/main/java/uk/ac/susx/mlcl/erl/webapp/HttpStatus.java:863-867 | as written, over any status table: a negative code is refused, and when the table has a duplicate code every other lookup fails in the map's initializer |
| HttpStatus.ValueOf | src/main/java/uk/ac/susx/mlcl/erl/webapp/HttpStatus.java:853-867 | over any status table, a lookup is refused exactly for a negative code |
| HttpStatus.ValueOfIsLastDefined | src/main/java/uk/ac/susx/mlcl/erl/webapp/HttpStatus.java:853-867 | over any status table, the lookup gives the last status defined with the code, or NullStatus when there is none |
| HttpStatus.AsWrittenAgreesWithoutDuplicates | src/main/java/uk/ac/susx/mlcl/erl/webapp/HttpStatus.java:983-988 | for any status table, the code as written gives the documented lookup of a code exactly when the code is negative or the table has no duplicate code |
| HttpStatus.DuplicatedCodes | src/main/java/uk/ac/susx/mlcl/erl/webapp/HttpStatus.java:208-226 | each of the codes 300, 302, 424 and 451 is declared twice: Multiple_Choices and Moved_Permanently, Found and Moved_Temporarily, Failed_Dependency and Method_Failure, Unavailable_For_Legal_Reasons and Redirect |
| HttpStatus.DuplicatesBreakValueOf | src/main/java/uk/ac/susx/mlcl/erl/webapp/HttpStatus.java:983-988 | as written every lookup of a non-negative code fails |
| HttpStatus.InRangeMembers | src/main/java/uk/ac/susx/mlcl/erl/webapp/HttpStatus.java:1178-1190 | a status is in the range query iff it is in the table with a code between the bounds, inclusive |
| HttpStatus.RangesSplit | src/main/java/uk/ac/susx/mlcl/erl/webapp/HttpStatus.java:1178-1190 | a range split in two gives the union of the two queries |
| HttpStatus.InRangeStep | src/main/java/uk/ac/susx/mlcl/erl/webapp/HttpStatus.java:1186-1188 | one step of the loop adds the status iff its code is in range |
| HttpStatus.StatusesInRange | src/main/java/uk/ac/susx/mlcl/erl/webapp/HttpStatus.java:1178-1190 | a negative minimum, a negative maximum and a minimum above the maximum are refused, in that order; otherwise the result is every status with a code in the range |
| HttpStatus.CollectInRange | src/main/java/uk/ac/susx/mlcl/erl/webapp/HttpStatus.java:1185-1188 | the loop over a status table collects exactly the statuses whose code lies between the bounds, inclusive |

## Left out

- File, directory and console I/O: the scorer's directory walk and report printing, and the TacIO readers and writers over files and opencsv. Lines and rows are given as sequences, and `ReadAll`/`WriteAll` model the row loops.
- The XML parts of TacIO (`detectFormatFromQueries` and the query readers): they are thin layers over XOM.
- `OutputSet`'s `append*` and `toString`: these are formatting only.
- Floating point: precision, recall, F1 and confidences are exact `real`s. Java's NaN (0/0) is `None`. `Double.parseDouble` is an oracle parameter, and the text form of a confidence is not modelled.
- `Comparators.natural` and the `mapped(Map)` overload: they rest on `Comparable` or `Map` lookups. The model covers `mapped` over a function.
- The `Metric` of `BCubedEvaluation` is a parameter selecting B2 or B3. The evaluation classes themselves (their constructors and inheritance) are not modelled as classes.
- `ReplacingInputStream`'s `equals`, `hashCode`, `toString` and `close`: they hold no logic the stream depends on.
- ReplacingStream.ReplacingInputStream.constructor: requires a non-empty search and replacement. The source does not check this. With an empty search the window has capacity 0, so it is always full and always equals the search, and the replacement is emitted forever. With an empty replacement the output buffer has capacity 0: a match leaves it empty, so `read` returns -1 at once, and the first byte that does not match overflows it.
- ReplacingStream.ReplacingInputStream.ReadInto: writes into the caller's array `b` from `off`, as the source does, but requires `off + len <= b.Length`; the bounds exceptions the source throws for other `off`/`len` are not modelled.
- DocumentParser: error messages are reduced to the position and the expected character.
- DocumentParser: the content buffer includes the look-ahead character read past a tag, as the code does. This is described as behaviour and not claimed as a defect.
- Java `assert` statements are treated as enabled. Where they guard internal states, the model proves those states cannot happen.
- ConfusionBuilder: the confusion-matrix classes built from the counts (EJML matrices, `BinaryConfusionMatrix`) are left out, and so is the order and format of label names. Guava's `Multiset` rejects negative occurrence counts; the model uses `nat` counts.
- Integer width: counts, codes and indexes are unbounded. The one place where Java's 32-bit arithmetic changes the result, negating `Integer.MIN_VALUE` in `reverse`, is modelled explicitly.
- JsonUtil: `getEntityChunks` compares ids and types with reference `!=`. The model uses value equality, the evident intent for strings from the same annotation.
- JsonUtil: `printAnnotationAsJson`, the `JsonFactory` and pretty printing are left out. The model stops at the sequence of JSON objects.
- AnnotationService's own copies of `getEntityChunks` and `xmlEncode` are identical to JsonUtil's and are modelled once, in JsonUtil. `preloadLinker`, `linkAsJson` and the CoreNLP pipeline run are not modelled; the model stops at the list of steps.
- CharacterShape.CharacterShapeAnnotator.Annotate: a failure part-way through leaves the earlier tokens already annotated in the source. The model returns the error without them.
- CharacterShape: `Boolean.valueOf` is modelled with ASCII case folding.
- CharacterShape: the `Factory` and `getSuppliedAnnotations` are not modelled.
- Hash-map and hash-set iteration order is not fixed. Results that depend on it are stated for every order, or take the order as a parameter: `AnnotationToXml.Builder.Build` is given the iteration order of its suffix set, and `SuffixOrderMatters` shows that the names depend on it.
- AnnotationToXml: reflection and class loading are inputs, with package and class names given as lists of parts. Case mapping in `LowerFirst` is ASCII.
- AnnotationToXml: only the Builder setters that affect naming are modelled (`addAnnotationRoot`, `addStripSuffix`, `addSimplifiedName`); the XML serialisation itself is left out.
- TacIO: the 2009 format's regression expectations are stated on the model only.
- Genre and EntityType: the enum files are not part of this model. Their constants (NW, WB, NG; PER, ORG, GPE, UKN) come from their uses in the code.
- RandomRanker: `Random.nextInt` is a sequence of draws in range.
- T9Sax: the `characters(ch, start, length)` slice is given as a string.
- T9Sax: the `uk` copy of `T9Fact` is not part of this model. The fact builder follows the `eu` copy.
- T9Sax: the `TacEntryHandler` callback is a list of the entities passed on, and exceptions leave the handler as it was. The `Stats` class is two counters, and string interning is left out.
- ReplacingStream.ReplacingInputStream.Available: the delegate's `available()` is only an estimate, so it is a parameter bounded by what the delegate has left. The model does not promise that the result is 0 only when nothing remains.
- AliasMapping.NonRecursive: the class comment of `AliasMappingGenerator.java:7-9` says that plain mode passes the alias on to the delegate, but the code at `:61-65` returns just the alias, `singleton(alias)`. The model follows the code.
- HttpStatus: the null check on the message, `toHtmlString`, `isHttpVersion10/11` and the plain accessors are left out.
- EntityLinking: the annotator's `Factory`, `getRequiredAnnotations` and `getSuppliedAnnotations` are not modelled.
- Web application, network clients, caches, MapDB persistence and the CoreNLP annotator factories are outside the core and are not modelled.

## Findings

The operations follow the code as written. Each corrected member is proved beside them, together with the lemma that shows where the two readings part.

| source | as written | input that shows it | evidently intended | confidence | as-written member | corrected member |
|---|---|---|---|---|---|---|
| old/src/main/scripts/2011_el_scorer.py:82-84 | `b2_recall` calls `b3_precision`, so it computes the B3 recall | gold {E1: {A}}, system {E2: {A}}: B3 recall 0, B2 recall 1 | `b2_recall` calls `b2_precision` | not executed | ElScorer.B2RecallAsWrittenDiffers | ElScorer.Recall |
| src/main/java/uk/ac/susx/mlcl/erl/tac/io/ReplacingInputStream.java:54 | `read()` returns the buffered `byte` sign-extended, so the byte 0xFF is returned as -1, the end-of-stream value | a stream whose next byte is 0xFF | return the byte as 0 to 255 (`& 0xFF`), as `InputStream.read` requires | not executed | ReplacingStream.SignedReadConfusesEnd, ReplacingStream.SignedReadIntoStopsAtFF | ReplacingStream.UnsignedReadSpec, ReplacingStream.ReplacingInputStream.ReadIntoUnsigned |
| src/main/java/uk/ac/susx/mlcl/lib/Comparators.java:238-248 | `reverse` negates the delegate's result, and `-Integer.MIN_VALUE` is `Integer.MIN_VALUE` | a delegate returning `Integer.MIN_VALUE` for (a, b) and -1 for (b, a): reversed, both are negative | negate the sign, so the reversed comparator is antisymmetric | not executed | Comparators.ReversedAsWrittenKeepsMinValue | Comparators.ReversedAntisymmetric |
| src/main/java/eu/ac/susx/mlcl/erl/linker/EntityLinkingAnnotator.java:189 | the surface form ends one character past the last token's end offset | text "Obama spoke" with one token at [0, 5): "Obama " | end at the last token's end offset | not executed | EntityLinking.SurfaceFormOffByOne, EntityLinking.ObamaTwice | EntityLinking.SurfaceFormIsText, EntityLinking.GroupingsAgree |
| src/main/java/uk/ac/susx/mlcl/erl/xml/AnnotationToXML.java:737-750 | once every part is used, a number is appended even if the full name is free | class `Foo` in the default package with no existing names: "foo.2" | number only when even the full name is taken: "foo" | not executed | AnnotationToXml.AsWrittenNumbersFreeName | AnnotationToXml.NoNumberWhileFree |
| src/main/java/uk/ac/susx/mlcl/erl/t9kb/T9SaxHandler.java:305-307 | unhandled attributes are found by comparing sizes only | an entity with name, id, type and "bogus": four names, four allowed, so it passes | refuse any attribute that is neither required nor optional | not executed | T9Sax.SizeCheckAdmitsUnknownAttribute, T9Sax.LinkWithUnknownAttribute | T9Sax.CheckAttributes, T9Sax.KnowledgeBaseStartIntended |
| src/main/java/uk/ac/susx/mlcl/erl/t9kb/T9Entity.java:198-201 | `setWikiTitle` wraps its argument with `Optional.of`, which refuses the null an absent `wiki_title` gives | an entity element without `wiki_title`, an attribute the handler lists as optional | an absent title stays absent | not executed | T9Sax.UntitledEntityRefused | T9Sax.OpenEntity |
| src/main/java/uk/ac/susx/mlcl/erl/webapp/HttpStatus.java:983-988 | the code map is built with an `ImmutableMap` builder, which refuses the duplicated codes 300, 302, 424 and 451, so the first lookup fails | `valueOf(200)` | the documented rule: the last status defined with a code wins | not executed | HttpStatus.DuplicatesBreakValueOf | HttpStatus.ValueOfIsLastDefined |
