/** The tokenizer (tokenizer.go): a five-state machine that turns a
    line-oriented byte stream into sentences, each framed by `order` start
    tokens and one end token, one token per `Next` call.

    The reader is modelled as the bytes it has not delivered yet; the
    specification of the machine is the token stream a fresh tokenizer emits
    (`Stream`), and `Tokenizer.Pending` gives, for every state, the tokens
    still to come. */
module Tokenizing {
  import opened Wrappers
  import opened Seqs
  import opened Text
  import opened Tokens

  /** The state functions of the source, one constructor each. */
  datatype State = StartOfSentence | GrabSentence | HasSentence | EndOfSentence | Eof

  const Newline: Byte := '\n'
  const Space: Byte := ' '

  /** How many bytes one `ReadSlice('\n')` over the unread bytes delivers:
      up to and including the first newline, or everything that is left. */
  function LineLength(input: Bytes): (n: nat)
    ensures n <= |input|
  {
    var k := IndexByte(input, Newline);
    if k < 0 then |input| else k + 1
  }

  /** Whether that read fails: there is no newline before the end. */
  predicate ReadFails(input: Bytes)
  {
    IndexByte(input, Newline) < 0
  }

  /** The bytes the read delivers. */
  function ReadLine(input: Bytes): Bytes
  {
    input[..LineLength(input)]
  }

  /** The bytes left after the read. */
  function Unread(input: Bytes): (r: Bytes)
    ensures |r| <= |input|
  {
    input[LineLength(input)..]
  }

  /** A read splits the input; a failed read takes all of it, a successful
      one at least one byte. */
  lemma ReadLineSplits(input: Bytes)
    ensures ReadLine(input) + Unread(input) == input
    ensures ReadFails(input) ==> Unread(input) == []
    ensures !ReadFails(input) ==> |Unread(input)| < |input|
  {
  }

  /** A read stops at the first newline, and fails only when there is none. */
  lemma ReadLineFirstNewline(input: Bytes)
    ensures var line := ReadLine(input);
      && (!ReadFails(input) ==> |line| >= 1 && line[|line| - 1] == Newline && Newline !in line[..|line| - 1])
      && (ReadFails(input) <==> Newline !in input)
  {
    IndexByteFirst(input, Newline);
    var k := IndexByte(input, Newline);
    if k >= 0 {
      assert input[..k + 1][..k] == input[..k];
    }
  }

  // ---------------------------------------------------------------------
  // Words of a line

  /** The pieces of `line` between single spaces (as `bytes.Split` would
      cut them). */
  function Segments(line: Bytes): (r: seq<Bytes>)
    ensures |r| >= 1
    decreases |line|
  {
    var k := IndexByte(line, Space);
    if k < 0 then [line] else [line[..k]] + Segments(line[k + 1..])
  }

  /** No piece holds a space. */
  lemma {:induction false} SegmentsHaveNoSpace(line: Bytes)
    ensures forall i :: 0 <= i < |Segments(line)| ==> Space !in Segments(line)[i]
    decreases |line|
  {
    var k := IndexByte(line, Space);
    IndexByteFirst(line, Space);
    if k >= 0 {
      WordsCons(line);
      SegmentsHaveNoSpace(line[k + 1..]);
      NoneHoldsCons(line[..k], Segments(line[k + 1..]), Space);
    } else {
      WordsLast(line);
    }
  }

  lemma NoneHoldsCons(x: Bytes, rest: seq<Bytes>, b: Byte)
    requires b !in x
    requires forall i :: 0 <= i < |rest| ==> b !in rest[i]
    ensures forall i :: 0 <= i < |[x] + rest| ==> b !in ([x] + rest)[i]
  {
    forall i | 0 <= i < |[x] + rest| ensures b !in ([x] + rest)[i] {
      if i > 0 { assert ([x] + rest)[i] == rest[i - 1]; }
    }
  }

  /** There is one piece more than there are spaces. */
  lemma {:induction false} SegmentsCount(line: Bytes)
    ensures |Segments(line)| == Count(line, Space) + 1
    decreases |line|
  {
    var k := IndexByte(line, Space);
    IndexByteFirst(line, Space);
    if k >= 0 {
      assert line == line[..k] + [Space] + line[k + 1..];
      CountAppend(line[..k] + [Space], line[k + 1..], Space);
      CountAppend(line[..k], [Space], Space);
      SegmentsCount(line[k + 1..]);
    }
  }

  /** Putting the spaces back between the pieces gives the line again. */
  lemma {:induction false} JoinSegments(line: Bytes)
    ensures Join(Segments(line), [Space]) == line
    decreases |line|
  {
    var k := IndexByte(line, Space);
    IndexByteFirst(line, Space);
    if k >= 0 {
      JoinSegments(line[k + 1..]);
      JoinCons(line[..k], Segments(line[k + 1..]), [Space]);
      assert line == line[..k] + [Space] + line[k + 1..];
    }
  }

  /** The word tokens for the pieces of a line: every piece as it is,
      except the last, whose surrounding white space is trimmed. */
  function WordsOf(pieces: seq<Bytes>): (r: Sentence)
    requires |pieces| >= 1
    ensures |r| == |pieces|
  {
    if |pieces| == 1 then [WordToken(TrimSpace(pieces[0]))]
    else [WordToken(pieces[0])] + WordsOf(pieces[1..])
  }

  /** The word tokens `HasSentence` emits for the rest of a line, one per
      call: the bytes before each space as they are, and the bytes after the
      last space with their surrounding white space trimmed. */
  function Words(seg: Bytes): (r: Sentence)
    ensures |r| >= 1
  {
    WordsOf(Segments(seg))
  }

  /** Trimming keeps only bytes of the original, so it adds no space. */
  lemma TrimSpaceNoSpace(s: Bytes)
    requires Space !in s
    ensures Space !in TrimSpace(s)
  {
    TrimSpaceTrims(s);
    var r, i := TrimSpace(s), LeadingSpace(s);
    forall j | 0 <= j < |r| ensures r[j] != Space {
      assert r[j] == s[i + j];
    }
  }

  /** The words are the pieces, the last one trimmed. */
  lemma {:induction false} WordsOfPieces(pieces: seq<Bytes>)
    requires |pieces| >= 1
    ensures forall i :: 0 <= i < |pieces| - 1 ==> WordsOf(pieces)[i] == WordToken(pieces[i])
    ensures WordsOf(pieces)[|pieces| - 1] == WordToken(TrimSpace(pieces[|pieces| - 1]))
  {
    if |pieces| > 1 {
      var rest := pieces[1..];
      WordsOfPieces(rest);
      forall i | 1 <= i < |pieces| ensures WordsOf(pieces)[i] == WordsOf(rest)[i - 1] && pieces[i] == rest[i - 1] {
      }
    }
  }

  /** The words of a line are its pieces, the last one trimmed. */
  lemma WordsAreSegments(seg: Bytes)
    ensures |Words(seg)| == |Segments(seg)|
    ensures forall i :: 0 <= i < |Words(seg)| - 1 ==> Words(seg)[i] == WordToken(Segments(seg)[i])
    ensures Words(seg)[|Words(seg)| - 1] == WordToken(TrimSpace(Segments(seg)[|Segments(seg)| - 1]))
  {
    WordsOfPieces(Segments(seg));
  }

  /** Before a space: one word, then the words after it. */
  lemma WordsCons(seg: Bytes)
    requires IndexByte(seg, Space) >= 0
    ensures var k := IndexByte(seg, Space);
      && Words(seg) == [WordToken(seg[..k])] + Words(seg[k + 1..])
      && Segments(seg) == [seg[..k]] + Segments(seg[k + 1..])
  {
    var k := IndexByte(seg, Space);
    var pieces := Segments(seg[k + 1..]);
    assert ([seg[..k]] + pieces)[1..] == pieces;
  }

  /** No space left: one last, trimmed word. */
  lemma WordsLast(seg: Bytes)
    requires IndexByte(seg, Space) < 0
    ensures Words(seg) == [WordToken(TrimSpace(seg))]
    ensures Segments(seg) == [seg]
  {
  }

  lemma FirstWordNoSpace(seg: Bytes)
    ensures Words(seg)[0].kind == WordType && Space !in Words(seg)[0].value
  {
    WordsShape(seg);
  }

  /** One word per space plus one; every token is a word and no word holds a
      space. */
  lemma WordsShape(seg: Bytes)
    ensures |Words(seg)| == Count(seg, Space) + 1
    ensures forall i :: 0 <= i < |Words(seg)| ==> Words(seg)[i].kind == WordType && Space !in Words(seg)[i].value
  {
    WordsAreSegments(seg);
    SegmentsCount(seg);
    SegmentsHaveNoSpace(seg);
    var ws, ss := Words(seg), Segments(seg);
    TrimSpaceNoSpace(ss[|ss| - 1]);
  }

  // ---------------------------------------------------------------------
  // The token stream of a whole input

  /** The tokens of the sentence made from one line. */
  function SentenceOf(line: Bytes, order: nat): Sentence
  {
    Starts(order) + Words(line) + [EndToken]
  }

  /** Every token a fresh tokenizer emits for `input`, in order: one framed
      sentence per line read. */
  function Stream(input: Bytes, order: nat): Sentence
    decreases |input|
  {
    var line, rest := ReadLine(input), Unread(input);
    SentenceOf(line, order) + if ReadFails(input) then [] else Stream(rest, order)
  }

  /** The tokens of `Stream` after the start tokens of the first sentence. */
  function AfterStarts(input: Bytes, order: nat): Sentence
  {
    var line, rest := ReadLine(input), Unread(input);
    Words(line) + [EndToken] + if ReadFails(input) then [] else Stream(rest, order)
  }

  lemma StreamUnfold(input: Bytes, order: nat)
    ensures Stream(input, order) == Starts(order) + AfterStarts(input, order)
  {
    var line, rest := ReadLine(input), Unread(input);
    var tail := if ReadFails(input) then [] else Stream(rest, order);
    Associate(Starts(order), Words(line), EndToken, tail);
  }

  /** The lines `ReadSlice` delivers, the last one read together with end of
      input. */
  function Lines(input: Bytes): (r: seq<Bytes>)
    ensures |r| >= 1
    decreases |input|
  {
    var line, rest := ReadLine(input), Unread(input);
    [line] + if ReadFails(input) then [] else Lines(rest)
  }

  /** The sentence of each line, in order. */
  function SentencesOf(lines: seq<Bytes>, order: nat): (r: seq<Sentence>)
    ensures |r| == |lines|
  {
    seq(|lines|, i requires 0 <= i < |lines| => SentenceOf(lines[i], order))
  }

  lemma SentencesOfIndex(lines: seq<Bytes>, order: nat, i: nat)
    requires i < |lines|
    ensures SentencesOf(lines, order)[i] == SentenceOf(lines[i], order)
  {
  }

  lemma SentencesOfCons(line: Bytes, lines: seq<Bytes>, order: nat)
    ensures SentencesOf([line] + lines, order) == [SentenceOf(line, order)] + SentencesOf(lines, order)
  {
  }

  /** The sentences of an input, one per line. */
  function Sentences(input: Bytes, order: nat): (r: seq<Sentence>)
    ensures |r| == |Lines(input)|
  {
    SentencesOf(Lines(input), order)
  }

  /** A successful read delivers exactly one newline, a failed one none. */
  lemma ReadLineCount(input: Bytes)
    ensures Count(ReadLine(input), Newline) == if ReadFails(input) then 0 else 1
  {
    var line, rest := ReadLine(input), Unread(input);
    ReadLineFirstNewline(input);
    if !ReadFails(input) {
      var n := |line| - 1;
      assert line == line[..n] + [Newline];
      CountAppend(line[..n], [Newline], Newline);
    }
  }

  /** There is one line per newline, plus the one read at end of input. */
  lemma {:induction false} LinesCount(input: Bytes)
    ensures |Lines(input)| == Count(input, Newline) + 1
    decreases |input|
  {
    var line, rest := ReadLine(input), Unread(input);
    ReadLineSplits(input);
    CountAppend(line, rest, Newline);
    ReadLineCount(input);
    if !ReadFails(input) {
      LinesCount(rest);
    }
  }

  /** The sentences of an input are the sentence of its first line followed
      by the sentences of the rest. */
  lemma SentencesCons(input: Bytes, order: nat)
    ensures var line, rest := ReadLine(input), Unread(input);
      Sentences(input, order) == [SentenceOf(line, order)] + if ReadFails(input) then [] else Sentences(rest, order)
  {
    var line, rest := ReadLine(input), Unread(input);
    if ReadFails(input) {
      SentencesOfCons(line, [], order);
    } else {
      SentencesOfCons(line, Lines(rest), order);
    }
  }

  /** Input that ends in a newline ends with an empty line: the last read
      returns no bytes and end of input. */
  lemma {:induction false} LastLineAfterNewline(input: Bytes)
    requires |input| >= 1 && input[|input| - 1] == Newline
    ensures Lines(input)[|Lines(input)| - 1] == []
    decreases |input|
  {
    var rest := Unread(input);
    LastLineStep(input);
    if rest == [] {
      NoLinesLeft();
    } else {
      LastLineAfterNewline(rest);
    }
  }

  /** One read from input that ends in a newline: the last line is the last
      line of the rest, which is empty or again ends in a newline. */
  lemma LastLineStep(input: Bytes)
    requires |input| >= 1 && input[|input| - 1] == Newline
    ensures var rest := Unread(input);
      && |rest| < |input|
      && (rest == [] || rest[|rest| - 1] == Newline)
      && Lines(input)[|Lines(input)| - 1] == Lines(rest)[|Lines(rest)| - 1]
  {
    var line, rest := ReadLine(input), Unread(input);
    ReadLineSucceeds(input);
    LinesCons(input);
    LastOfCons(line, Lines(rest));
    if rest != [] {
      LastOfAppend(line, rest);
    }
  }

  /** A read from input that ends in a newline succeeds. */
  lemma ReadLineSucceeds(input: Bytes)
    requires |input| >= 1 && input[|input| - 1] == Newline
    ensures !ReadFails(input)
  {
    assert input[|input| - 1] in input;
    ReadLineFirstNewline(input);
  }

  /** After a successful read come the lines of the rest. */
  lemma LinesCons(input: Bytes)
    requires !ReadFails(input)
    ensures Lines(input) == [ReadLine(input)] + Lines(Unread(input))
  {
  }

  /** Reading from no input delivers one empty line. */
  lemma NoLinesLeft()
    ensures Lines([]) == [[]]
  {
    assert ReadFails([]) && ReadLine([]) == [];
  }

  /** So such an input yields one last sentence whose only word is empty. */
  lemma TrailingNewlineSentence(input: Bytes, order: nat)
    requires |input| >= 1 && input[|input| - 1] == Newline
    ensures Sentences(input, order)[|Sentences(input, order)| - 1] == SentenceOf([], order)
  {
    LastLineAfterNewline(input);
    var ls := Lines(input);
    SentencesOfIndex(ls, order, |ls| - 1);
  }

  /** An empty line is one empty word. */
  lemma EmptyLineSentence(order: nat)
    ensures SentenceOf([], order) == Starts(order) + [WordToken([])] + [EndToken]
  {
    assert Words([]) == [WordToken([])];
  }

  /** The shape of every sentence: `order` starts, at least one word, and one
      end token, which is the last token. */
  lemma SentenceOfShape(line: Bytes, order: nat)
    ensures |SentenceOf(line, order)| >= order + 2
    ensures SentenceOf(line, order)[..order] == Starts(order)
    ensures forall i :: order <= i < |SentenceOf(line, order)| - 1 ==> SentenceOf(line, order)[i].kind == WordType
    ensures SentenceOf(line, order)[|SentenceOf(line, order)| - 1] == EndToken
  {
    WordsShape(line);
    var s := SentenceOf(line, order);
    forall i | order <= i < |s| - 1 ensures s[i].kind == WordType {
      assert s[i] == Words(line)[i - order];
    }
  }

  // ---------------------------------------------------------------------
  // Cutting a token stream into sentences, as `Sentence()` does

  predicate IsEnd(t: Token)
  {
    t.kind == SentenceEndType
  }

  predicate NoEnd(s: Sentence)
  {
    forall i :: 0 <= i < |s| ==> !IsEnd(s[i])
  }

  /** The tokens up to and including the first end token (all of them when
      there is none). */
  function FirstSentence(ts: Sentence): (r: Sentence)
    ensures |r| <= |ts| && r == ts[..|r|]
    ensures ts != [] ==> |r| >= 1
    ensures forall i :: 0 <= i < |r| - 1 ==> !IsEnd(r[i])
    ensures r == ts || IsEnd(r[|r| - 1])
  {
    if ts == [] then []
    else if IsEnd(ts[0]) then [ts[0]]
    else
      [ts[0]] + FirstSentence(ts[1..])
  }

  /** Repeated `FirstSentence`: the sentences a token stream falls into. */
  function SplitSentences(ts: Sentence): seq<Sentence>
    decreases |ts|
  {
    if ts == [] then []
    else
      var s := FirstSentence(ts);
      [s] + SplitSentences(ts[|s|..])
  }

  lemma {:induction false} FirstSentenceFramed(a: Sentence, t: Token, b: Sentence)
    requires NoEnd(a) && IsEnd(t)
    ensures FirstSentence(a + [t] + b) == a + [t]
  {
    if a != [] {
      assert (a + [t] + b)[1..] == a[1..] + [t] + b;
      FirstSentenceFramed(a[1..], t, b);
    }
  }

  lemma SentenceOfNoEnd(line: Bytes, order: nat)
    ensures NoEnd(Starts(order) + Words(line))
  {
    WordsShape(line);
    var s := Starts(order) + Words(line);
    forall i | 0 <= i < |s| ensures !IsEnd(s[i]) {
      if i >= order { assert s[i] == Words(line)[i - order]; }
    }
  }

  /** The stream of a whole input falls into exactly its sentences. */
  lemma {:induction false} SplitStream(input: Bytes, order: nat)
    ensures SplitSentences(Stream(input, order)) == Sentences(input, order)
    decreases |input|
  {
    var line, rest := ReadLine(input), Unread(input);
    var head := SentenceOf(line, order);
    var tail := if ReadFails(input) then [] else Stream(rest, order);
    SentenceOfNoEnd(line, order);
    FirstSentenceFramed(Starts(order) + Words(line), EndToken, tail);
    assert Stream(input, order)[|head|..] == tail;
    SentencesCons(input, order);
    if !ReadFails(input) {
      SplitStream(rest, order);
    }
  }

  /** A sentence with its end token, followed by nothing or by something
      that ends with an end token, ends with an end token. */
  lemma FramedEndsWithEnd(w: Sentence, tail: Sentence)
    requires tail == [] || tail[|tail| - 1] == EndToken
    ensures (w + [EndToken] + tail)[|w + [EndToken] + tail| - 1] == EndToken
  {
  }

  /** A non-empty stream ends with an end token. */
  lemma {:induction false} StreamEndsWithEnd(input: Bytes, order: nat)
    ensures |Stream(input, order)| >= 1 && Stream(input, order)[|Stream(input, order)| - 1] == EndToken
    decreases |input|
  {
    var line, rest := ReadLine(input), Unread(input);
    var tail := if ReadFails(input) then [] else Stream(rest, order);
    if !ReadFails(input) {
      StreamEndsWithEnd(rest, order);
    }
    FramedEndsWithEnd(Starts(order) + Words(line), tail);
  }

  lemma AfterStartsEndsWithEnd(input: Bytes, order: nat)
    ensures |AfterStarts(input, order)| >= 1 && AfterStarts(input, order)[|AfterStarts(input, order)| - 1] == EndToken
  {
    var line, rest := ReadLine(input), Unread(input);
    var tail := if ReadFails(input) then [] else Stream(rest, order);
    if !ReadFails(input) {
      StreamEndsWithEnd(rest, order);
    }
    FramedEndsWithEnd(Words(line), tail);
  }

  // ---------------------------------------------------------------------
  // The machine

  class Tokenizer {
    /** The bytes the reader has not delivered yet. */
    var input: Bytes
    const order: int
    var state: State
    var startEmit: int
    var readerErr: bool
    /** The line being cut into words, and the cursor into it. */
    var sentence: Bytes
    var p: int

    ghost predicate Valid()
      reads this
    {
      && order >= 1
      && 0 <= startEmit < order
      && 0 <= p <= |sentence|
      && (state != StartOfSentence ==> startEmit == 0)
      && (state == StartOfSentence || state == GrabSentence ==> !readerErr)
      && (readerErr ==> input == [])
    }

    /** What follows the end token of the current sentence. */
    ghost function Continuation(): Sentence
      reads this
      requires Valid()
    {
      if readerErr then [] else Stream(input, order)
    }

    /** The tokens that the coming `Next` calls will emit, in order. */
    ghost function Pending(): Sentence
      reads this
      requires Valid()
    {
      match state
      case StartOfSentence => Starts(order - startEmit) + AfterStarts(input, order)
      case GrabSentence => AfterStarts(input, order)
      case HasSentence => Words(sentence[p..]) + [EndToken] + Continuation()
      case EndOfSentence => [EndToken] + Continuation()
      case Eof => []
    }

    /** `NewTokenizerString`: a tokenizer over the bytes of `data`. */
    constructor (data: Bytes, order: int)
      requires order >= 1
      ensures Valid() && this.order == order && state == StartOfSentence && startEmit == 0
      ensures Pending() == Stream(data, order)
    {
      this.input := data;
      this.order := order;
      state := StartOfSentence;
      startEmit := 0;
      readerErr := false;
      sentence := [];
      p := 0;
      new;
      StreamUnfold(data, order);
    }

    /** Only the final state has nothing left to emit. */
    lemma PendingEmpty()
      requires Valid()
      ensures Pending() == [] <==> state == Eof
    {
      if state == StartOfSentence {
        assert |Starts(order - startEmit)| >= 1;
      }
    }

    /** Whatever is left to emit ends with an end token. */
    lemma PendingEndsWithEnd()
      requires Valid() && state != Eof
      ensures |Pending()| >= 1 && Pending()[|Pending()| - 1] == EndToken
    {
      if state == StartOfSentence || state == GrabSentence {
        AfterStartsEndsWithEnd(input, order);
        if state == StartOfSentence {
          LastOfAppend(Starts(order - startEmit), AfterStarts(input, order));
        }
      } else {
        ContinuationEnds();
        FramedEndsWithEnd(if state == HasSentence then Words(sentence[p..]) else [], Continuation());
      }
    }

    lemma ContinuationEnds()
      requires Valid()
      ensures Continuation() == [] || Continuation()[|Continuation()| - 1] == EndToken
    {
      if !readerErr { StreamEndsWithEnd(input, order); }
    }

    /** `tokenizerStartOfSentence`: one start token; after the `order`-th the
        count is reset and the next line is read. */
    method StepStartOfSentence() returns (tok: Token)
      requires Valid() && state == StartOfSentence
      modifies this
      ensures Valid() && tok == StartToken
      ensures old(startEmit) + 1 == order ==> state == GrabSentence && startEmit == 0
      ensures old(startEmit) + 1 < order ==> state == StartOfSentence && startEmit == old(startEmit) + 1
      ensures input == old(input) && readerErr == old(readerErr) && sentence == old(sentence) && p == old(p)
      ensures [tok] + Pending() == old(Pending())
    {
      startEmit := startEmit + 1;
      tok := StartToken;
      if startEmit == order {
        startEmit := 0;
        state := GrabSentence;
      }
    }

    /** `tokenizerEndOfSentence`: one end token; then the final state if the
        last read failed, the next sentence otherwise. */
    method StepEndOfSentence() returns (tok: Token)
      requires Valid() && state == EndOfSentence
      modifies this
      ensures Valid() && tok == EndToken
      ensures state == (if readerErr then Eof else StartOfSentence)
      ensures input == old(input) && readerErr == old(readerErr) && startEmit == 0
      ensures [tok] + Pending() == old(Pending())
    {
      tok := EndToken;
      if readerErr {
        state := Eof;
      } else {
        state := StartOfSentence;
        StreamUnfold(input, order);
      }
    }

    /** `tokenizerHasSentence`: the word up to the next space, moving the
        cursor past it, or the trimmed rest of the line when no space is
        left. */
    method StepHasSentence() returns (tok: Token)
      requires Valid() && state == HasSentence
      modifies this
      ensures Valid()
      ensures tok.kind == WordType && Space !in tok.value
      ensures state == (if Space in old(sentence[p..]) then HasSentence else EndOfSentence)
      ensures input == old(input) && readerErr == old(readerErr) && sentence == old(sentence) && old(p) <= p
      ensures [tok] + Pending() == old(Pending())
    {
      ghost var tail := Continuation();
      var next := IndexByte(sentence[p..], Space);
      if next == -1 {
        CutAtCursor(sentence, p, tail);
        tok := WordToken(TrimSpace(sentence[p..]));
        state := EndOfSentence;
      } else {
        CutAtCursor(sentence, p, tail);
        var prev := p;
        p := p + next + 1;
        tok := WordToken(sentence[prev..prev + next]);
      }
      assert Continuation() == tail;
    }

    /** `HasSentence` on the line `sentence` with the cursor at `p`: the word
        it emits and what is left to emit after it. */
    static lemma CutAtCursor(sentence: Bytes, p: nat, tail: Sentence)
      requires p <= |sentence|
      ensures var k := IndexByte(sentence[p..], Space);
        && (Space in sentence[p..] <==> k >= 0)
        && (k >= 0 ==>
              && p + k < |sentence| && Space !in sentence[p..p + k]
              && Words(sentence[p..]) + [EndToken] + tail == [WordToken(sentence[p..p + k])] + (Words(sentence[p + k + 1..]) + [EndToken] + tail))
        && (k < 0 ==>
              && Space !in TrimSpace(sentence[p..])
              && Words(sentence[p..]) + [EndToken] + tail == [WordToken(TrimSpace(sentence[p..]))] + ([EndToken] + tail))
    {
      var line := sentence[p..];
      WordAtCursor(line, tail);
      var k := IndexByte(line, Space);
      if k >= 0 {
        SliceOfSlice(sentence, p, k);
      }
    }

    /** The word `HasSentence` emits for the rest `line` of a line, and what
        is left to emit after it: the next words when a space follows, or
        the end token when none does. */
    static lemma WordAtCursor(line: Bytes, tail: Sentence)
      ensures var k := IndexByte(line, Space);
        && (Space in line <==> k >= 0)
        && Words(line)[0].kind == WordType && Space !in Words(line)[0].value
        && Words(line)[0] == WordToken(if k < 0 then TrimSpace(line) else line[..k])
        && (k < 0 ==> Words(line) + [EndToken] + tail == [WordToken(TrimSpace(line))] + ([EndToken] + tail))
        && (k >= 0 ==> Words(line) + [EndToken] + tail == [WordToken(line[..k])] + (Words(line[k + 1..]) + [EndToken] + tail))
    {
      IndexByteFirst(line, Space);
      FirstWordNoSpace(line);
      if IndexByte(line, Space) < 0 {
        WordsLast(line);
      } else {
        WordsCons(line);
      }
    }

    /** `tokenizerGrabSentence`: read the next line, remember a failed read,
        reset the cursor and emit its first word. */
    method StepGrabSentence() returns (tok: Token)
      requires Valid() && state == GrabSentence
      modifies this
      ensures Valid()
      ensures sentence == ReadLine(old(input)) && input == Unread(old(input))
      ensures readerErr == ReadFails(old(input))
      ensures state == HasSentence || state == EndOfSentence
      ensures tok.kind == WordType
      ensures [tok] + Pending() == old(Pending())
    {
      var failed := ReadFails(input);
      sentence, input := ReadLine(input), Unread(input);
      if failed {
        readerErr := true;
      }
      p := 0;
      state := HasSentence;
      assert sentence[p..] == sentence;
      tok := StepHasSentence();
    }

    /** `Next`: run the current state function once. Every state but the
        final one emits exactly the next pending token; the final state
        reports end of input and stays. */
    method Next() returns (r: Option<Token>)
      requires Valid()
      modifies this
      ensures Valid()
      ensures r.None? <==> old(state) == Eof
      ensures state == Eof ==> r.None? || IsEnd(r.value)
      ensures r.None? ==> state == Eof && old(Pending()) == [] && Pending() == []
      ensures r.Some? ==> old(Pending()) != [] && r.value == old(Pending())[0] && Pending() == old(Pending())[1..]
    {
      match state
      case Eof =>
        r := None;
      case StartOfSentence =>
        var tok := StepStartOfSentence();
        r := Some(tok);
      case GrabSentence =>
        var tok := StepGrabSentence();
        r := Some(tok);
      case HasSentence =>
        var tok := StepHasSentence();
        r := Some(tok);
      case EndOfSentence =>
        var tok := StepEndOfSentence();
        r := Some(tok);
    }

    /** `Sentence`: the pending tokens through the next end token. At a
        sentence boundary that is the whole next sentence; in the final state
        it is nothing, with end of input. */
    method Sentence() returns (s: Sentence, eof: bool)
      requires Valid()
      modifies this
      ensures Valid()
      ensures eof <==> old(Pending()) == []
      ensures s == FirstSentence(old(Pending()))
      ensures Pending() == old(Pending())[|s|..]
    {
      ghost var all := Pending();
      PendingEmpty();
      s := [];
      eof := false;
      while true
        invariant Valid()
        invariant all == s + Pending()
        invariant NoEnd(s)
        invariant s != [] ==> state != Eof
        decreases |Pending()|
      {
        ghost var before := Pending();
        var next := Next();
        if next.None? {
          eof := true;
          break;
        }
        ShiftOne(s, before);
        assert Dup(next.value) == next.value;
        s := s + [Dup(next.value)];
        if next.value.kind == SentenceEndType {
          assert s[..|s| - 1] + [next.value] == s;
          FirstSentenceFramed(s[..|s| - 1], next.value, Pending());
          break;
        }
      }
      DropPrefix(s, Pending());
    }
  }
}
