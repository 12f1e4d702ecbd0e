# markov: a verified model of a word-level Markov text generator

The program trains a Markov chain of fixed order on text and generates new
sentences from it.

**Tokenizing.** A tokenizer cuts its input into lines. Each line becomes one
sentence, one token per `Next` call:

- `order` start tokens;
- one word token per piece between single spaces, the last piece trimmed of
  white space;
- one end token.

Input that ends in a newline has one more, empty, line after it. So
`"a b\nc d\n"` gives three sentences, not two: with order 1 they are
`S a b E`, `S c d E` and `S "" E`, the last made of a start token, one empty
word and the end token (`TrailingNewlineSentence`, `EmptyLineSentence`).

**Training.** The model maps the key of every window of `order` tokens to the
list of tokens seen right after that window. The key is `Sentence.Hash`: the
token strings joined by `|`. Lists keep duplicates, in insertion order.
Every key of a trained table is the key of exactly `order` tokens
(`TrainAllContextKeys`).

**Generating.** Generation starts from `order` start tokens. It draws a
recorded successor of the last `order` tokens until an end token is
appended. A context that was never seen yields an end token. `GenerateN`
keeps the best-scoring of `n` generated sentences.

The project has six modules:

- `Wrappers`: `Option`.
- `Seqs`: facts about sequences shared by the other modules, and `Count`, the
  number of occurrences of an element.
- `Text`: the standard-library byte-string operations the program relies on.
  These are `bytes.IndexByte`, `strings.Join`, `strings.TrimSpace` and `%q`
  quoting.
- `Tokens`: `token.go`. `Token.String` is `TokenString`, `Sentence.String`
  is `SentenceString` and `Sentence.Hash` is `Hash`.
- `Tokenizing`: `tokenizer.go`. Its `Tokenizer` class has the fields of the Go
  struct and one method per state function; `Next` handles the final state
  (`tokenizerEof`) itself.
- `Markov`: `markov.go`. Its `Model` class has the `order` and `data` fields.

**How the tokenizer is specified.** `Stream(input, order)` is every token a
fresh tokenizer emits. The ghost function `Tokenizer.Pending()` gives, for any
reachable state, the tokens still to come. It is computed from the fields
(state, start count, unread input, current line, cursor, read error). Each
state method is proved to pop exactly the head of `Pending()`. `Sentence()`
is proved to pop through the first end token. `SplitStream` proves that the
stream falls into exactly one framed sentence per line read.

**How the model is specified.** Both `Analyze` and its loop are specified by
functions on the table:

- `TrainFirst` is the table after the first `n` insertions.
- `Train` folds `Inserted` over the windows `Transitions(s, order)`.

The lemmas about these functions give the effect on each key.

**How the key is defined.** `Hash` is written token by token, from the last
token back: for non-empty `s`, `Hash(s + [t]) == Hash(s) + "|" + t.String()`,
and the key of a single token is its string. `HashIsJoin` proves it equal to
the source's formulation, the token strings joined by `|`.

## Model

| member | source | states |
|---|---|---|
| Tokens.TypeName | token.go:16-26 | the name is "Unknown Type" exactly for a value other than the three constants; each defined name ends in "Type" |
| Tokens.TypeNamesDistinct | token.go:10-26 | the three defined tags have three different names |
| Tokens.Equals | token.go:33-35 | true exactly when the two tokens have the same value and the same tag, that is, are the same token |
| Tokens.Dup | token.go:45-47 | the copy equals the original, in both directions |
| Tokens.TokenStringIgnoresValue | token.go:37-43 | start and end tokens with the same tag have the same string, whatever their values |
| Tokens.TokenStringDetermines | token.go:37-43 | for defined tags, equal strings mean equal tags and, for words, equal values |
| Tokens.WordStringDetermines | token.go:40 | two word tokens with the same string have the same value |
| Tokens.SentenceStringOfMarkers | token.go:51-57 | a sentence whose tokens all have empty values (only start and end tokens, say) renders as the empty string |
| Tokens.SentenceStringFramed | token.go:51-57 | a sentence framed by `n` start tokens and an end token renders as its words joined by single spaces and trimmed: the markers add nothing |
| Tokens.HashShort | token.go:59-65 | the key of no tokens is empty; the key of one token is that token's string |
| Tokens.HashSnoc | token.go:59-65 | appending a token to a non-empty context appends `|` and that token's string to its key |
| Tokens.HashIsJoin | token.go:59-65 | the key is the token strings joined by `|` |
| Tokens.StringsSnoc | token.go:60-63 | the loop that fills the token strings: one more token appends its string at the end |
| Text.IndexByteFirst | tokenizer.go:74 | `IndexByte` gives -1 exactly when the byte is absent, and otherwise the index of its first occurrence |
| Text.JoinSnoc | token.go:64 | joining one more part appends the separator and the part |
| Text.JoinCons | token.go:56 | joining a part in front prepends the part and the separator |
| Text.TrimSpaceTrims | tokenizer.go:76 | `TrimSpace` keeps a contiguous slice; only white space lies before and after it, and neither of its ends is white space |
| Text.TrimSpaceEmpty | token.go:56 | trimming leaves nothing exactly when the input is all white space |
| Text.TrimSpaceUnique | token.go:56 | white space around a middle that neither starts nor ends with white space trims to exactly that middle |
| Text.TrimSpacePadded | token.go:56 | white space added at either end does not change what trimming keeps |
| Text.TrimJoinEmptyFirst | token.go:56 | an empty first part, joined with a white-space separator, does not change the trimmed join |
| Text.TrimJoinEmptyLast | token.go:56 | an empty last part, joined with a white-space separator, does not change the trimmed join |
| Text.Quote | token.go:40 | the quoted text starts and ends with a double quote |
| Text.UnquoteQuote | token.go:40 | unquoting the quoted text gives the original bytes back |
| Text.QuoteInjective | token.go:40 | different byte strings quote differently |
| Tokenizing.ReadLineSplits | tokenizer.go:65-68 | a read delivers a prefix of the unread bytes and leaves the rest; a failed read takes everything; a successful one consumes at least one byte |
| Tokenizing.ReadLineFirstNewline | tokenizer.go:65-68 | a successful read ends at the first newline; a read fails exactly when no newline is left |
| Tokenizing.LinesCount | tokenizer.go:63-71 | the input yields one line per newline plus one |
| Tokenizing.LastLineAfterNewline | tokenizer.go:63-71 | input ending in a newline yields a last, empty line |
| Tokenizing.TrailingNewlineSentence | tokenizer.go:63-85 | input ending in a newline yields a last sentence built from the empty line |
| Tokenizing.EmptyLineSentence | tokenizer.go:76-78 | the sentence of an empty line is the start tokens, one empty word and the end token |
| Tokenizing.SegmentsCount | tokenizer.go:73-85 | a line has one piece more than it has spaces |
| Tokenizing.SegmentsHaveNoSpace | tokenizer.go:73-85 | no piece holds a space |
| Tokenizing.JoinSegments | tokenizer.go:73-85 | the pieces joined with single spaces give the line back |
| Tokenizing.WordsAreSegments | tokenizer.go:73-85 | each word is its piece unchanged, except the last, which is its piece trimmed |
| Tokenizing.WordsShape | tokenizer.go:73-85 | the number of words is the number of spaces plus one; every word is a word token without a space |
| Tokenizing.WordsCons | tokenizer.go:80-84 | before a space: the bytes up to it form the next word, and the words of what follows come after |
| Tokenizing.WordsLast | tokenizer.go:75-78 | with no space left: exactly one word, the trimmed rest |
| Tokenizing.SentenceOfShape | tokenizer.go:42-85 | every sentence has `order` start tokens, then at least one word (all word tokens), and an end token as its last token |
| Tokenizing.SentencesCons | tokenizer.go:63-71 | the sentences of an input are the sentence of its first line, then those of the rest unless the read failed |
| Tokenizing.FirstSentence | tokenizer.go:99-108 | the tokens are a prefix of the stream; none before the last is an end token; the last is an end token unless the whole stream was taken |
| Tokenizing.FirstSentenceFramed | tokenizer.go:99-108 | the first sentence of a stream that starts with a sentence without ends followed by an end token is exactly that sentence |
| Tokenizing.SplitStream | tokenizer.go:93-111 | cutting the token stream of an input at its end tokens gives exactly the sentences of its lines |
| Tokenizing.StreamEndsWithEnd | tokenizer.go:54-61 | the stream of any input is non-empty and ends with an end token |
| Tokenizing.Tokenizer.constructor | tokenizer.go:30-36 | a fresh tokenizer starts in the start-of-sentence state with a zero count, and will emit exactly `Stream(data, order)` |
| Tokenizing.Tokenizer.PendingEmpty | tokenizer.go:38-40 | nothing is left to emit exactly in the final state |
| Tokenizing.Tokenizer.PendingEndsWithEnd | tokenizer.go:54-61 | in every other state, what is left ends with an end token |
| Tokenizing.Tokenizer.ContinuationEnds | tokenizer.go:54-61 | what follows the current sentence is nothing or ends with an end token |
| Tokenizing.Tokenizer.StepStartOfSentence | tokenizer.go:42-52 | emits a start token; after the `order`-th the count resets to 0 and the next state reads a line; otherwise the count goes up by one; pops the head of the pending tokens |
| Tokenizing.Tokenizer.StepEndOfSentence | tokenizer.go:54-61 | emits an end token; the next state is the final one exactly when the last read failed, otherwise a new sentence; pops the head of the pending tokens |
| Tokenizing.Tokenizer.StepGrabSentence | tokenizer.go:63-71 | reads the next line and consumes it from the input; the read error is set exactly when the read failed; emits the first word of the line (running the word step from the start of the line); pops the head of the pending tokens |
| Tokenizing.Tokenizer.StepHasSentence | tokenizer.go:73-85 | emits a word token without spaces; the cursor never moves back; stays in this state exactly when a space remains; pops the head of the pending tokens |
| Tokenizing.Tokenizer.CutAtCursor | tokenizer.go:74-84 | with a space at offset `k` after the cursor: the emitted word is the bytes before it, and the words after it remain; with no space: the word is the trimmed rest, and only the end token remains before what follows |
| Tokenizing.Tokenizer.WordAtCursor | tokenizer.go:74-84 | the first word of the rest of a line is the bytes before its first space, or the trimmed rest when there is none; the other words follow it |
| Tokenizing.Tokenizer.Next | tokenizer.go:87-91 | in the final state: end of input, and the state stays; in any other state: exactly the next pending token, removed from what is pending |
| Tokenizing.Tokenizer.Sentence | tokenizer.go:93-111 | returns the pending tokens through the first end token (copies of the emitted tokens) and removes them from what is pending; end of input exactly when nothing was pending, and then the sentence is empty |
| Markov.Inserted | markov.go:102-107 | the key is added to the keys; its list gains `val` at the end, starting from empty when it was absent; every other key keeps its list; non-empty lists stay non-empty |
| Markov.Model.Insert | markov.go:102-107 | the table becomes `Inserted(old table, key, val)`; every list stays non-empty |
| Markov.Windows | markov.go:86-87 | one window per insertion done so far |
| Markov.Transitions | markov.go:86 | `len(s) - order` windows, or none when the sentence is not longer than the context |
| Markov.TransitionsAt | markov.go:85-90 | window `i` records token `i + order` under the key of tokens `i` to `i + order` |
| Markov.InsertAll | markov.go:85-90 | a run of insertions keeps every list non-empty |
| Markov.InsertAllSnoc | markov.go:85-90 | one more window adds one more insertion |
| Markov.Successors | markov.go:85-90 | a key gets at most one successor per window |
| Markov.InsertAllLookup | markov.go:85-90 | after a run of insertions, the list of each key is its old list followed by the successors the run recorded for it, in order; other keys keep their lists |
| Markov.SuccessorsHold | markov.go:85-90 | every window's token is among the successors of its key |
| Markov.SuccessorsAbsent | markov.go:85-90 | a key no window mentions gets nothing |
| Markov.TrainFirstInserts | markov.go:86-89 | the first `n` loop iterations insert exactly the first `n` windows |
| Markov.TrainFirstAll | markov.go:86-89 | when the loop exits, the table is the trained one |
| Markov.TrainRecords | markov.go:85-90 | after training, each token from position `order` on is among the successors of the `order` tokens before it |
| Markov.TrainShort | markov.go:85-90 | a sentence no longer than the context leaves the table unchanged |
| Markov.TrainAll | markov.go:92-100 | training on a run of sentences keeps every list non-empty |
| Markov.InsertAllKeys | markov.go:85-90 | after a run of insertions, a key is present exactly when it was present before or some window has it |
| Markov.TrainKeys | markov.go:85-90 | after training on `s`, a key is present exactly when it was present before or it is the key of `order` consecutive tokens of `s` that some token follows |
| Markov.TrainContextKeys | markov.go:85-90 | training keeps every key the key of a context of exactly `order` tokens |
| Markov.TrainAllContextKeys | markov.go:92-100 | training on a run of sentences keeps every key the key of a context of exactly `order` tokens |
| Markov.Model.constructor | markov.go:15-20 | a model of the given order with an empty table |
| Markov.Model.Analyze | markov.go:85-90 | the table becomes `Train(old table, s, order)`; every list stays non-empty; if every key was the key of `order` tokens, it still is |
| Markov.Model.AnalyzeFully | markov.go:92-100 | consumes every sentence the tokenizer had left and leaves it with nothing pending; the table is the old one trained on those sentences in order; if every key was the key of `order` tokens, it still is |
| Markov.Intn | markov.go:55 | the index is below `n`; every index below `n` can be drawn |
| Markov.Model.Next | markov.go:49-56 | an end token when the key of the last `order` tokens is absent; otherwise an element of its list, any of which can be drawn |
| Markov.Model.Seed | markov.go:109-115 | exactly `order` start tokens and no end token |
| Markov.Model.GeneratedStep | markov.go:117-127 | each step appends a token that may follow the prefix; the generation stops with it exactly when it is an end token |
| Markov.Model.GeneratedExtends | markov.go:117-127 | a generated sentence extends its prefix; its last token is an end token and no token added before it is |
| Markov.Model.GeneratedFollowsAt | markov.go:117-127 | every added token is a recorded successor of its context, or an end token for a context never seen |
| Markov.Model.GenerateShape | markov.go:117-127 | a generated sentence is the seed, then drawn tokens, and ends with its one and only end token |
| Markov.Model.Generate | markov.go:117-127 | returns `Generated(Seed(), draws)`: the seed, then drawn tokens, the last and only the last an end token |
| Seqs.Count | markov.go:76-80 | the number of times the token occurs in the list (its multiplicity), so at most the list length and zero exactly when the token is not in the list |
| Markov.Model.TallyOf | markov.go:67-83 | untrained exactly when the key is absent; otherwise `1 <= denom`, `num <= denom`, and `num >= 1` exactly when the token was recorded for the context |
| Markov.Model.Tally | markov.go:67-83 | the counting loop returns `TallyOf(prefix, suffix)` |
| Markov.Model.FollowsSeen | markov.go:58-83 | a token that may follow its context has a non-zero count in that window, unless the context was never seen |
| Markov.Model.GeneratedWindowsSeen | markov.go:58-83 | every window that `score` visits in a generated sentence has a non-zero count or an unseen context |
| Markov.BestSnoc | markov.go:134-140 | one more candidate replaces the pick exactly when its score is at least the running maximum |
| Markov.BestIsLastMaximum | markov.go:129-142 | the maximum is never negative and bounds every score; with no non-negative score the result is the empty sentence; otherwise it is a candidate with the maximum score, and no later candidate reaches that score |
| Markov.Model.Candidates | markov.go:134-135 | one candidate per iteration |
| Markov.Model.MoreCandidates | markov.go:134-135 | one more iteration adds one more candidate at the end |
| Markov.Model.GenerateN | markov.go:129-142 | `n <= 0` gives the empty sentence; otherwise the pick of the best-of-`n` fold over the generated candidates, with a maximum starting at 0 and a `>=` tie-break |

## Left out

- `markovlimiter.go` is not part of this model. It caches a `GenerateN` result and refreshes it in the background, and the model has no concurrency.
- The `test.go` driver is not part of this model.
- `Save` and `NewMarkovFrom` are not part of this model. They are gob serialisation over I/O.
- `NewTokenizer` over an `io.Reader` is not part of this model. Only `NewTokenizerString` is: the reader becomes the bytes not yet delivered.
- `score` and the logarithm in `scoreIndivdual` are not part of this model, because they are floating point. What is modelled is the integer count `scoreIndivdual` takes the logarithm of (`TallyOf`). `GenerateN` takes the score as a parameter.
- Markov.Model.GenerateN: the score is any function from sentences to reals, so `GenerateN(1)` returning its only candidate follows from `BestIsLastMaximum` only when that score is non-negative. The source's `-log2(num/denom)` terms are never negative.
- Markov.Model.Generate: the source loops until an end token comes and may never stop. The model takes a finite list of draws, one per lookup, and returns `None` when they run out first.
- Markov.Model.Next: `rand.Intn(n)` is modelled as a given draw taken modulo `n`. Its distribution is not modelled.
- Markov.Model.GeneratedFollowsAt: the chain "each token may follow the tokens before it" is stated one index at a time, not as a single predicate over the whole sentence.
- Tokens.HashIsJoin: the key is not claimed to be free of collisions across different contexts. A value containing `|` is quoted, but `|` also separates the token strings.
- Markov.Model.constructor: takes a natural `order`. The source accepts a negative order, and then `Analyze` panics when it slices `s[i:i+order]` and `seed` panics when it makes a slice of length `order`; those panics are not modelled.
- Tokenizing.Tokenizer.constructor: requires `order >= 1`. With `order <= 0` the source's start-of-sentence state never reaches its reset, so it emits start tokens forever.
- Tokenizing.Tokenizer.Sentence: the error is modelled as an `eof` flag. `io.EOF` is the only error the modelled reader produces.
- Tokenizing.Tokenizer.StepGrabSentence: `bufio.ErrBufferFull` is not modelled. With it, a line longer than the reader's buffer marks the read as failed: only its first buffer-full becomes a sentence, the tokenizer then moves to its final state, and the rest of that line and every later line are never tokenized.
- Text.TrimSpace: trims ASCII white space only. The Unicode white space that `strings.TrimSpace` also removes (for example U+0085 and U+00A0 in UTF-8) is kept.
- Text.Quote: `%q` writes printable bytes as they are and escapes control bytes, the double quote and the backslash. Its treatment of bytes from 0x80 up (UTF-8 decoding, `\u` and `\x` escapes of invalid sequences) is simplified to writing the byte as it is.
- `GenerateN(1)` returns the output of its one generation only because the running maximum starts at 0 and the source's scores are never negative. The model keeps the maximum starting at 0, as the code does.
