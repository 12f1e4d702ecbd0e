/** Tokens and sentences (token.go): the values the tokenizer produces and the
    Markov model stores. */
module Tokens {
  import opened Text

  /** The tag of a token. Go declares it as an `int`, so values other than the
      three constants below exist too. */
  type TokenType = int

  const SentenceStartType: TokenType := 0
  const SentenceEndType: TokenType := 1
  const WordType: TokenType := 2

  predicate IsDefinedType(tt: TokenType)
  {
    tt == SentenceStartType || tt == SentenceEndType || tt == WordType
  }

  /** `tokenType.String`: the name of a tag. */
  function TypeName(tt: TokenType): (r: Bytes)
    ensures r == "Unknown Type" <==> !IsDefinedType(tt)
    ensures IsDefinedType(tt) ==> |r| >= 8 && r[|r| - 4..] == "Type"
  {
    if tt == SentenceStartType then "SentenceStartType"
    else if tt == SentenceEndType then "SentenceEndType"
    else if tt == WordType then "WordType"
    else "Unknown Type"
  }

  /** The three defined tags have three different names. */
  lemma TypeNamesDistinct(a: TokenType, b: TokenType)
    requires IsDefinedType(a) && IsDefinedType(b) && a != b
    ensures TypeName(a) != TypeName(b)
  {
  }

  datatype Token = Token(value: Bytes, kind: TokenType)

  /** What the tokenizer emits at the start and at the end of every sentence,
      and what `next` makes up for a context it has never seen. */
  const StartToken: Token := Token("", SentenceStartType)
  const EndToken: Token := Token("", SentenceEndType)

  function WordToken(value: Bytes): Token
  {
    Token(value, WordType)
  }

  /** `Token.Equals`: the same value and the same tag, that is, the same token. */
  predicate Equals(t: Token, ot: Token)
    ensures Equals(t, ot) <==> t == ot
  {
    t.value == ot.value && t.kind == ot.kind
  }

  /** `Token.Dup`: a copy that equals the original. */
  function Dup(t: Token): (r: Token)
    ensures Equals(r, t) && Equals(t, r)
  {
    Token(t.value, t.kind)
  }

  /** `Token.String`: `[<tag name>]`, followed for a word by a space and the
      quoted value. */
  function TokenString(t: Token): Bytes
  {
    "[" + TypeName(t.kind) + "]" + if t.kind == WordType then " " + Quote(t.value) else ""
  }

  /** The string of a start or end token does not depend on its value. */
  lemma TokenStringIgnoresValue(a: Token, b: Token)
    requires a.kind == b.kind && a.kind != WordType
    ensures TokenString(a) == TokenString(b)
  {
  }

  /** The first `]` of a token string closes the tag name. */
  lemma CloseBracketAfterName(t: Token)
    requires IsDefinedType(t.kind)
    ensures IndexByte(TokenString(t), ']') == |TypeName(t.kind)| + 1
  {
    var s, name := TokenString(t), TypeName(t.kind);
    var head := "[" + name;
    assert s == head + "]" + s[|head| + 1..];
    assert ']' !in head;
    IndexByteAfter(head, ']', s[|head| + 1..]);
  }

  /** Tokens with defined tags have the same string only when they have the
      same tag and, for words, the same value. */
  lemma TokenStringDetermines(a: Token, b: Token)
    requires IsDefinedType(a.kind) && IsDefinedType(b.kind)
    requires TokenString(a) == TokenString(b)
    ensures a.kind == b.kind
    ensures a.kind == WordType ==> a.value == b.value
  {
    CloseBracketAfterName(a);
    CloseBracketAfterName(b);
    assert |TypeName(a.kind)| == |TypeName(b.kind)|;
    if a.kind == WordType {
      WordStringDetermines(a.value, b.value);
    }
  }

  lemma WordString(v: Bytes)
    ensures TokenString(WordToken(v)) == "[WordType] " + Quote(v)
  {
  }

  lemma WordStringDetermines(v: Bytes, w: Bytes)
    requires TokenString(WordToken(v)) == TokenString(WordToken(w))
    ensures v == w
  {
    WordString(v);
    WordString(w);
    var p: Bytes := "[WordType] ";
    assert (p + Quote(v))[|p|..] == Quote(v);
    assert (p + Quote(w))[|p|..] == Quote(w);
    QuoteInjective(v, w);
  }

  /** A sentence is a sequence of tokens. */
  type Sentence = seq<Token>

  /** `n` start tokens: the frame a sentence begins with. */
  function Starts(n: nat): (r: Sentence)
    ensures |r| == n
    ensures forall i :: 0 <= i < n ==> r[i] == StartToken
  {
    if n == 0 then [] else [StartToken] + Starts(n - 1)
  }

  /** The values of the tokens, in order. */
  function Values(s: Sentence): seq<Bytes>
  {
    seq(|s|, i requires 0 <= i < |s| => s[i].value)
  }

  /** The strings of the tokens, in order. */
  function Strings(s: Sentence): seq<Bytes>
  {
    seq(|s|, i requires 0 <= i < |s| => TokenString(s[i]))
  }

  /** `Sentence.String`: the values joined by single spaces, trimmed. */
  function SentenceString(s: Sentence): Bytes
  {
    TrimSpace(Join(Values(s), " "))
  }

  /** `Sentence.Hash`: the key of a context, the token strings joined by `|`,
      written token by token from the last one (`HashIsJoin` proves it is the
      join). */
  function Hash(s: Sentence): Bytes
    decreases |s|, 1
  {
    if |s| == 0 then [] else Extend(s[..|s| - 1], s[|s| - 1])
  }

  /** The key of `init` followed by `t`: the string of `t`, after a `|` when
      `init` is not empty. */
  function Extend(init: Sentence, t: Token): Bytes
    decreases |init| + 1, 0
  {
    if |init| == 0 then TokenString(t) else Hash(init) + "|" + TokenString(t)
  }

  /** A sentence of start and end tokens only renders as the empty string. */
  lemma SentenceStringOfMarkers(s: Sentence)
    requires forall i :: 0 <= i < |s| ==> s[i].value == []
    ensures SentenceString(s) == []
  {
    JoinEmptyPartsIsSpace(Values(s), " ");
    TrimSpaceTrims(Join(Values(s), " "));
  }

  /** The start and end tokens around a sentence's words add nothing to its
      string: it is the words joined by spaces, trimmed. */
  lemma {:induction false} SentenceStringFramed(n: nat, w: Sentence)
    ensures SentenceString(Starts(n) + w + [EndToken]) == TrimSpace(Join(Values(w), " "))
  {
    var s := Starts(n) + w + [EndToken];
    if n == 0 {
      assert s == w + [EndToken];
      assert Values(s) == Values(w) + [[]];
      TrimJoinEmptyLast(Values(w), " ");
    } else {
      var rest := Starts(n - 1) + w + [EndToken];
      assert s == [StartToken] + rest;
      assert Values(s) == [[]] + Values(rest);
      TrimJoinEmptyFirst(Values(rest), " ");
      SentenceStringFramed(n - 1, w);
    }
  }

  /** The key of no tokens is empty and the key of one token is its string. */
  lemma HashShort(t: Token)
    ensures Hash([]) == []
    ensures Hash([t]) == TokenString(t)
  {
    assert [t][..0] == [];
  }

  /** The key grows token by token: one more `|` and one more token string. */
  lemma HashSnoc(s: Sentence, t: Token)
    requires |s| >= 1
    ensures Hash(s + [t]) == Hash(s) + "|" + TokenString(t)
  {
    assert (s + [t])[..|s|] == s;
  }

  /** One more token adds one more string at the end. */
  lemma StringsSnoc(s: Sentence, t: Token)
    ensures Strings(s + [t]) == Strings(s) + [TokenString(t)]
  {
  }

  /** The key is the token strings joined by `|`. */
  lemma {:induction false} HashIsJoin(s: Sentence)
    ensures Hash(s) == Join(Strings(s), "|")
    decreases |s|
  {
    if |s| >= 2 {
      var init, t := s[..|s| - 1], s[|s| - 1];
      assert s == init + [t];
      HashIsJoin(init);
      HashSnoc(init, t);
      StringsSnoc(init, t);
      JoinSnoc(Strings(init), TokenString(t), "|");
    } else if |s| == 1 {
      HashShort(s[0]);
      assert s == [s[0]];
      assert Strings(s) == [TokenString(s[0])];
    }
  }
}
