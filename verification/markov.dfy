/** The Markov model (markov.go): a table from the key of a context of
    `order` tokens to every token seen right after that context, duplicates
    kept. Training records each window of a sentence; generation starts from
    `order` start tokens and draws successors until an end token comes.

    `rand.Intn(n)` is modelled by a draw: an arbitrary natural number taken
    modulo `n`, so every index below `n` can come out and nothing else can.
    A generation is given a finite list of draws, one per lookup, and reports
    `None` when they run out before an end token. */
module Markov {
  import opened Wrappers
  import opened Seqs
  import opened Text
  import opened Tokens
  import opened Tokenizing

  /** The `data` field: context key to the successors recorded for it. */
  type Table = map<Bytes, seq<Token>>

  /** The successors recorded under `key`; none when the key is absent. */
  function Lookup(d: Table, key: Bytes): seq<Token>
  {
    if key in d then d[key] else []
  }

  /** Every key present maps to a non-empty list, so that drawing an index
      from a present list is always possible. */
  predicate NonEmptyLists(d: Table)
  {
    forall key :: key in d ==> |d[key]| >= 1
  }

  /** `insert`: `val` appended to the list of `key`, the list created first
      when the key is new. */
  function Inserted(d: Table, key: Bytes, val: Token): (r: Table)
    ensures r.Keys == d.Keys + {key}
    ensures forall k :: Lookup(r, k) == if k == key then Lookup(d, k) + [val] else Lookup(d, k)
    ensures NonEmptyLists(d) ==> NonEmptyLists(r)
  {
    var list := if key in d then d[key] else [];
    d[key := list + [val]]
  }

  /** One recorded step of training: the key of a context and the token that
      came right after it. */
  datatype Transition = Transition(key: Bytes, next: Token)

  /** The first `n` windows of `s`: for each position `order + j` below
      `order + n`, the key of the `order` tokens before it and the token
      there. */
  function Windows(s: Sentence, order: nat, n: nat): (r: seq<Transition>)
    requires n == 0 || n + order <= |s|
    ensures |r| == n
  {
    if n == 0 then [] else Windows(s, order, n - 1) + [Transition(Hash(s[n - 1..n - 1 + order]), s[n - 1 + order])]
  }

  /** The windows `Analyze` walks over: one per position from `order` on, or
      none when the sentence is not longer than the context. */
  function Transitions(s: Sentence, order: nat): (r: seq<Transition>)
    ensures |r| == if |s| > order then |s| - order else 0
  {
    if |s| <= order then [] else Windows(s, order, |s| - order)
  }

  /** Window `i` of the first `n`. */
  lemma {:induction false} WindowAt(s: Sentence, order: nat, n: nat, i: nat)
    requires n + order <= |s| && i < n
    ensures Windows(s, order, n)[i] == Transition(Hash(s[i..i + order]), s[i + order])
  {
    if i < n - 1 {
      WindowAt(s, order, n - 1, i);
    }
  }

  /** `Analyze` does `len(s) - order` insertions, or none when the sentence
      is not longer than the context, and insertion `i` records the token at
      `i + order` under the key of the `order` tokens before it. */
  lemma TransitionsAt(s: Sentence, order: nat, i: nat)
    requires i < |Transitions(s, order)|
    ensures |Transitions(s, order)| == |s| - order
    ensures Transitions(s, order)[i] == Transition(Hash(s[i..i + order]), s[i + order])
  {
    WindowAt(s, order, |s| - order, i);
  }

  /** The table after inserting every transition of `ts`, in order. */
  function InsertAll(d: Table, ts: seq<Transition>): (r: Table)
    ensures NonEmptyLists(d) ==> NonEmptyLists(r)
    decreases |ts|
  {
    if ts == [] then d
    else
      var last := ts[|ts| - 1];
      Inserted(InsertAll(d, ts[..|ts| - 1]), last.key, last.next)
  }

  /** Inserting one more transition. */
  lemma InsertAllSnoc(d: Table, ts: seq<Transition>, t: Transition)
    ensures InsertAll(d, ts + [t]) == Inserted(InsertAll(d, ts), t.key, t.next)
  {
    assert (ts + [t])[..|ts|] == ts;
  }

  /** The successors recorded under `key` by the transitions `ts`, in
      order. */
  function Successors(ts: seq<Transition>, key: Bytes): (r: seq<Token>)
    ensures |r| <= |ts|
    decreases |ts|
  {
    if ts == [] then []
    else
      var last := ts[|ts| - 1];
      Successors(ts[..|ts| - 1], key) + if last.key == key then [last.next] else []
  }

  /** What inserting a run of transitions does to one key: the old list, then
      the new successors in the order they were inserted. Keys that no
      transition mentions keep their list. */
  lemma {:induction false} InsertAllLookup(d: Table, ts: seq<Transition>, key: Bytes)
    ensures Lookup(InsertAll(d, ts), key) == Lookup(d, key) + Successors(ts, key)
    decreases |ts|
  {
    if ts != [] {
      InsertAllLookup(d, ts[..|ts| - 1], key);
    }
  }

  /** Every transition's token is among the successors of its key. */
  lemma {:induction false} SuccessorsHold(ts: seq<Transition>, i: nat)
    requires i < |ts|
    ensures ts[i].next in Successors(ts, ts[i].key)
    decreases |ts|
  {
    if i < |ts| - 1 {
      SuccessorsHold(ts[..|ts| - 1], i);
    }
  }

  /** A key no transition mentions gets no successors. */
  lemma {:induction false} SuccessorsAbsent(ts: seq<Transition>, key: Bytes)
    requires forall i :: 0 <= i < |ts| ==> ts[i].key != key
    ensures Successors(ts, key) == []
    decreases |ts|
  {
    if ts != [] {
      SuccessorsAbsent(ts[..|ts| - 1], key);
    }
  }

  /** The table after the first `n` insertions of `Analyze(s)`. */
  function TrainFirst(d: Table, s: Sentence, order: nat, n: nat): Table
    requires n == 0 || n + order <= |s|
  {
    if n == 0 then d else Inserted(TrainFirst(d, s, order, n - 1), Hash(s[n - 1..n - 1 + order]), s[n - 1 + order])
  }

  /** The first `n` insertions insert the first `n` windows. */
  lemma {:induction false} TrainFirstInserts(d: Table, s: Sentence, order: nat, n: nat)
    requires n == 0 || n + order <= |s|
    ensures TrainFirst(d, s, order, n) == InsertAll(d, Windows(s, order, n))
  {
    if n > 0 {
      var prev := Windows(s, order, n - 1);
      var t := Transition(Hash(s[n - 1..n - 1 + order]), s[n - 1 + order]);
      assert Windows(s, order, n) == prev + [t];
      TrainFirstInserts(d, s, order, n - 1);
      InsertAllSnoc(d, prev, t);
    }
  }

  /** The table after `Analyze(s)`. */
  function Train(d: Table, s: Sentence, order: nat): Table
  {
    InsertAll(d, Transitions(s, order))
  }

  /** Once every window is inserted, the table is the trained one. */
  lemma TrainFirstAll(d: Table, s: Sentence, order: nat, n: nat)
    requires n == 0 || n + order <= |s|
    requires n + order >= |s|
    ensures TrainFirst(d, s, order, n) == Train(d, s, order)
  {
    TrainFirstInserts(d, s, order, n);
  }

  /** After training on `s`, each token of `s` from position `order` on is
      among the successors of the `order` tokens before it. */
  lemma TrainRecords(d: Table, s: Sentence, order: nat, i: nat)
    requires i + order < |s|
    ensures s[i + order] in Lookup(Train(d, s, order), Hash(s[i..i + order]))
  {
    var ts := Transitions(s, order);
    TransitionsAt(s, order, i);
    SuccessorsHold(ts, i);
    InsertAllLookup(d, ts, ts[i].key);
  }

  /** A sentence no longer than the context teaches nothing. */
  lemma TrainShort(d: Table, s: Sentence, order: nat)
    requires |s| <= order
    ensures Train(d, s, order) == d
  {
  }

  /** The keys a run of insertions leaves: the old keys and the key of every
      transition, and no other. */
  lemma {:induction false} InsertAllKeys(d: Table, ts: seq<Transition>, key: Bytes)
    ensures key in InsertAll(d, ts) <==> key in d || exists i :: 0 <= i < |ts| && ts[i].key == key
    decreases |ts|
  {
    if ts != [] {
      var init := ts[..|ts| - 1];
      InsertAllKeys(d, init, key);
      if exists i :: 0 <= i < |init| && init[i].key == key {
        var i :| 0 <= i < |init| && init[i].key == key;
        assert ts[i].key == key;
      }
    }
  }

  /** Whether `key` is the key of some context of exactly `order` tokens. */
  ghost predicate IsContextKey(key: Bytes, order: nat)
  {
    exists c: Sentence :: |c| == order && key == Hash(c)
  }

  /** The data-model invariant of a trained table: every key stands for a
      context of exactly `order` tokens. */
  ghost predicate ContextKeys(d: Table, order: nat)
  {
    forall key :: key in d ==> IsContextKey(key, order)
  }

  /** The key of the `order` tokens of `s` from position `i`. */
  function WindowKey(s: Sentence, order: nat, i: nat): Bytes
    requires i + order <= |s|
  {
    Hash(s[i..i + order])
  }

  /** Training on `s` adds exactly the keys of the windows of `s`: each new
      key is the key of `order` consecutive tokens of `s` that some token
      follows. */
  lemma TrainKeys(d: Table, s: Sentence, order: nat, key: Bytes)
    ensures key in Train(d, s, order) <==>
      key in d || exists i: nat :: i + order < |s| && key == WindowKey(s, order, i)
  {
    var ts := Transitions(s, order);
    InsertAllKeys(d, ts, key);
    if exists i :: 0 <= i < |ts| && ts[i].key == key {
      var i :| 0 <= i < |ts| && ts[i].key == key;
      TransitionsAt(s, order, i);
      assert key == WindowKey(s, order, i);
    }
    if exists i: nat :: i + order < |s| && key == WindowKey(s, order, i) {
      var i: nat :| i + order < |s| && key == WindowKey(s, order, i);
      assert i < |ts|;
      TransitionsAt(s, order, i);
      assert ts[i].key == key;
    }
  }

  /** Training keeps every key the key of a context of `order` tokens. */
  lemma TrainContextKeys(d: Table, s: Sentence, order: nat)
    requires ContextKeys(d, order)
    ensures ContextKeys(Train(d, s, order), order)
  {
    forall key | key in Train(d, s, order)
      ensures IsContextKey(key, order)
    {
      TrainKeys(d, s, order, key);
      if key !in d {
        var i: nat :| i + order < |s| && key == WindowKey(s, order, i);
        assert |s[i..i + order]| == order;
      }
    }
  }

  /** The table after `Analyze` on every sentence of `ss`, in order. */
  function TrainAll(d: Table, ss: seq<Sentence>, order: nat): (r: Table)
    ensures NonEmptyLists(d) ==> NonEmptyLists(r)
    decreases |ss|
  {
    if ss == [] then d else TrainAll(Train(d, ss[0], order), ss[1..], order)
  }

  /** A model trained from an empty table, or from one that already had the
      invariant, has only keys of contexts of exactly `order` tokens. */
  lemma {:induction false} TrainAllContextKeys(d: Table, ss: seq<Sentence>, order: nat)
    requires ContextKeys(d, order)
    ensures ContextKeys(TrainAll(d, ss, order), order)
    decreases |ss|
  {
    if ss != [] {
      TrainContextKeys(d, ss[0], order);
      TrainAllContextKeys(Train(d, ss[0], order), ss[1..], order);
    }
  }

  /** The integer counts `scoreIndivdual` takes the logarithm of: nothing for
      a context never seen (its term is 0), otherwise how many of the
      recorded successors equal the token (`num`) and how many there are
      (`denom`). */
  datatype Tally = Untrained | Seen(num: nat, denom: nat)

  /** A scoring choice in `GenerateN`: the running maximum and the sentence
      that reached it. */
  datatype Pick = Pick(max: real, val: Sentence)

  /** The fold of `GenerateN` over the candidates, in order: the maximum starts
      at 0 and the kept sentence is empty; a candidate scoring at least the
      running maximum replaces both. */
  function Best(cands: seq<Sentence>, score: Sentence -> real): Pick
    decreases |cands|
  {
    if cands == [] then Pick(0.0, [])
    else
      var p := Best(cands[..|cands| - 1], score);
      var last := cands[|cands| - 1];
      if score(last) >= p.max then Pick(score(last), last) else p
  }

  /** One more candidate. */
  lemma BestSnoc(cands: seq<Sentence>, x: Sentence, score: Sentence -> real)
    ensures Best(cands + [x], score) == if score(x) >= Best(cands, score).max then Pick(score(x), x) else Best(cands, score)
  {
    assert (cands + [x])[..|cands|] == cands;
  }

  /** `GenerateN` keeps the last candidate with the highest score, provided
      that score is not negative; when every score is negative it keeps the
      empty sentence. */
  lemma {:induction false} BestIsLastMaximum(cands: seq<Sentence>, score: Sentence -> real)
    ensures Best(cands, score).max >= 0.0
    ensures forall k :: 0 <= k < |cands| ==> score(cands[k]) <= Best(cands, score).max
    ensures (forall k :: 0 <= k < |cands| ==> score(cands[k]) < 0.0) ==> Best(cands, score) == Pick(0.0, [])
    ensures (exists k :: 0 <= k < |cands| && score(cands[k]) >= 0.0) ==>
              exists j :: 0 <= j < |cands| && Best(cands, score) == Pick(score(cands[j]), cands[j]) &&
                forall k :: j < k < |cands| ==> score(cands[k]) < Best(cands, score).max
    decreases |cands|
  {
    if cands != [] {
      var init := cands[..|cands| - 1];
      var n := |init|;
      BestIsLastMaximum(init, score);
      var p := Best(init, score);
      forall k | 0 <= k < n ensures score(cands[k]) == score(init[k]) {
      }
      if score(cands[n]) < p.max {
        if exists k :: 0 <= k < n && score(init[k]) >= 0.0 {
          var j :| 0 <= j < n && p == Pick(score(init[j]), init[j]) && forall k :: j < k < n ==> score(init[k]) < p.max;
          assert cands[j] == init[j];
        }
      }
    }
  }

  /** The value `rand.Intn(n)` returns when the random source yields
      `draw`: an index below `n`, and `draw` itself when that is one. */
  function Intn(draw: nat, n: nat): (i: nat)
    requires n >= 1
    ensures i < n
    ensures draw < n ==> i == draw
  {
    draw % n
  }

  class Model {
    const order: nat
    var data: Table

    ghost predicate Valid()
      reads this
    {
      NonEmptyLists(data)
    }

    /** `NewMarkov`: an empty table. */
    constructor (order: nat)
      ensures Valid() && this.order == order && data == map[]
    {
      this.order := order;
      data := map[];
    }

    /** `insert`: append `val` to the list of `key`, creating it if absent. */
    method Insert(key: Bytes, val: Token)
      requires Valid()
      modifies this
      ensures Valid() && data == Inserted(old(data), key, val)
    {
      if key !in data {
        data := data[key := []];
      }
      data := data[key := data[key] + [val]];
    }

    /** `Analyze`: record every window of `s`. */
    method Analyze(s: Sentence)
      requires Valid()
      modifies this
      ensures Valid() && data == Train(old(data), s, order)
      ensures ContextKeys(old(data), order) ==> ContextKeys(data, order)
    {
      var i := 0;
      while i + order < |s|
        invariant i == 0 || i + order <= |s|
        invariant data == TrainFirst(old(data), s, order, i)
        invariant Valid()
      {
        var pre, post := s[i..i + order], s[i + order];
        Insert(Hash(pre), post);
        i := i + 1;
      }
      TrainFirstAll(old(data), s, order, i);
      if ContextKeys(old(data), order) {
        TrainContextKeys(old(data), s, order);
      }
    }

    /** `AnalyzeFully`: train on every sentence the tokenizer still has, until
        it reports end of input. */
    method AnalyzeFully(t: Tokenizer)
      requires Valid() && t.Valid()
      modifies this, t
      ensures Valid() && t.Valid() && t.Pending() == []
      ensures data == TrainAll(old(data), SplitSentences(old(t.Pending())), order)
      ensures ContextKeys(old(data), order) ==> ContextKeys(data, order)
    {
      while true
        invariant Valid() && t.Valid()
        invariant TrainAll(data, SplitSentences(t.Pending()), order) == TrainAll(old(data), SplitSentences(old(t.Pending())), order)
        decreases |t.Pending()|
      {
        var sentence, eof := t.Sentence();
        if eof {
          break;
        }
        Analyze(sentence);
      }
      if ContextKeys(old(data), order) {
        TrainAllContextKeys(old(data), SplitSentences(old(t.Pending())), order);
      }
    }

    /** The key of the last `order` tokens of `prefix`. */
    function ContextKey(prefix: Sentence): Bytes
      requires |prefix| >= order
    {
      Hash(prefix[|prefix| - order..])
    }

    /** `next`: an end token for a context never seen, otherwise the
        recorded successor at index `draw` modulo the list length. */
    function Next(prefix: Sentence, draw: nat): (r: Token)
      reads this
      requires Valid() && |prefix| >= order
      ensures ContextKey(prefix) !in data ==> r == EndToken
      ensures ContextKey(prefix) in data ==> r in data[ContextKey(prefix)]
      ensures ContextKey(prefix) in data && draw < |data[ContextKey(prefix)]| ==> r == data[ContextKey(prefix)][draw]
    {
      var key := ContextKey(prefix);
      if key !in data then EndToken
      else data[key][Intn(draw, |data[key]|)]
    }

    /** `seed`: `order` start tokens. */
    function Seed(): (r: Sentence)
      ensures |r| == order && NoEnd(r)
      ensures forall i :: 0 <= i < order ==> r[i] == StartToken
    {
      Starts(order)
    }

    /** A token `t` may follow `prefix`: it is a recorded successor of the
        context, or the end token when the context was never seen. */
    ghost predicate Follows(prefix: Sentence, t: Token)
      reads this
      requires |prefix| >= order
    {
      var key := ContextKey(prefix);
      if key in data then t in data[key] else t == EndToken
    }

    /** What `Generate` builds on `prefix` when its lookups draw `draws`, in
        order; `None` when the draws run out before an end token. */
    function Generated(prefix: Sentence, draws: seq<nat>): Option<Sentence>
      reads this
      requires Valid() && |prefix| >= order
      decreases |draws|
    {
      if draws == [] then None
      else
        var t := Next(prefix, draws[0]);
        if IsEnd(t) then Some(prefix + [t]) else Generated(prefix + [t], draws[1..])
    }

    /** One lookup of a generation: the token drawn may follow the prefix,
        and the generation stops with it or goes on from it. */
    lemma GeneratedStep(prefix: Sentence, draws: seq<nat>)
      requires Valid() && |prefix| >= order && draws != []
      ensures var t := Next(prefix, draws[0]);
        && Follows(prefix, t)
        && Generated(prefix, draws) == if IsEnd(t) then Some(prefix + [t]) else Generated(prefix + [t], draws[1..])
    {
    }

    /** A generated sentence extends its prefix, and the first end token
        added is the last token. */
    lemma {:induction false} GeneratedExtends(prefix: Sentence, draws: seq<nat>)
      requires Valid() && |prefix| >= order
      ensures var r := Generated(prefix, draws);
        r.Some? ==>
          && |r.value| > |prefix| && r.value[..|prefix|] == prefix
          && IsEnd(r.value[|r.value| - 1])
          && (forall i :: |prefix| <= i < |r.value| - 1 ==> !IsEnd(r.value[i]))
      decreases |draws|
    {
      if draws != [] {
        GeneratedStep(prefix, draws);
        var t := Next(prefix, draws[0]);
        var longer := prefix + [t];
        if !IsEnd(t) {
          GeneratedExtends(longer, draws[1..]);
          var r := Generated(longer, draws[1..]);
          if r.Some? {
            var v := r.value;
            assert v[|prefix|] == longer[|prefix|];
            assert v[..|prefix|] == longer[..|prefix|];
          }
        }
      }
    }

    /** Every token a generation adds may follow the tokens before it. */
    lemma {:induction false} GeneratedFollowsAt(prefix: Sentence, draws: seq<nat>, i: nat)
      requires Valid() && |prefix| >= order
      requires Generated(prefix, draws).Some? && |prefix| <= i < |Generated(prefix, draws).value|
      ensures var v := Generated(prefix, draws).value; Follows(v[..i], v[i])
      decreases |draws|
    {
      GeneratedStep(prefix, draws);
      var t := Next(prefix, draws[0]);
      var longer := prefix + [t];
      var v := Generated(prefix, draws).value;
      if IsEnd(t) {
        assert v == longer && i == |prefix|;
        assert v[..i] == prefix;
      } else {
        GeneratedExtends(longer, draws[1..]);
        assert v[..|longer|] == longer;
        if i == |prefix| {
          assert v[..i] == prefix && v[i] == t by {
            assert v[..|longer|][..i] == prefix;
          }
        } else {
          GeneratedFollowsAt(longer, draws[1..], i);
        }
      }
    }

    /** The shape of every sentence `Generate` can return: the seed, then
        the drawn tokens, the last one and only the last one an end token. */
    lemma GenerateShape(draws: seq<nat>)
      requires Valid()
      ensures var r := Generated(Seed(), draws);
        r.Some? ==>
          && |r.value| >= order + 1 && r.value[..order] == Seed()
          && IsEnd(r.value[|r.value| - 1])
          && (forall i :: 0 <= i < |r.value| - 1 ==> !IsEnd(r.value[i]))
    {
      GeneratedExtends(Seed(), draws);
      var r := Generated(Seed(), draws);
      if r.Some? {
        var v := r.value;
        forall i | 0 <= i < order ensures !IsEnd(v[i]) {
          assert v[i] == v[..order][i];
        }
      }
    }

    /** `Generate`: start from the seed and append drawn successors until an
        end token has been appended. */
    method Generate(draws: seq<nat>) returns (r: Option<Sentence>)
      requires Valid()
      ensures r == Generated(Seed(), draws)
      ensures r.Some? ==>
        && |r.value| >= order + 1 && r.value[..order] == Seed()
        && IsEnd(r.value[|r.value| - 1])
        && (forall i :: 0 <= i < |r.value| - 1 ==> !IsEnd(r.value[i]))
    {
      var seed := Seed();
      var k := 0;
      GenerateShape(draws);
      while k < |draws|
        invariant k <= |draws| && |seed| >= order
        invariant Generated(seed, draws[k..]) == Generated(Seed(), draws)
      {
        var next := Next(seed, draws[k]);
        assert draws[k..][0] == draws[k] && draws[k..][1..] == draws[k + 1..];
        seed := seed + [next];
        if IsEnd(next) {
          return Some(seed);
        }
        k := k + 1;
      }
      return None;
    }

    /** The counts `scoreIndivdual` works from, for the context `prefix` and
        the token `suffix`. */
    function TallyOf(prefix: Sentence, suffix: Token): (r: Tally)
      reads this
      requires Valid()
      ensures r.Untrained? <==> Hash(prefix) !in data
      ensures r.Seen? ==> 1 <= r.denom && r.num <= r.denom && (r.num >= 1 <==> suffix in data[Hash(prefix)])
    {
      var key := Hash(prefix);
      if key !in data then Untrained else Seen(Count(data[key], suffix), |data[key]|)
    }

    /** The counting loop of `scoreIndivdual`. */
    method Tally(prefix: Sentence, suffix: Token) returns (r: Tally)
      requires Valid()
      ensures r == TallyOf(prefix, suffix)
    {
      var key := Hash(prefix);
      if key !in data {
        return Untrained;
      }
      var list := data[key];
      var num := 0;
      var i := 0;
      while i < |list|
        invariant i <= |list|
        invariant num == Count(list[..i], suffix)
      {
        if Equals(suffix, list[i]) {
          num := num + 1;
        }
        assert list[..i + 1][..i] == list[..i];
        i := i + 1;
      }
      assert list[..i] == list;
      return Seen(num, |list|);
    }

    /** Every window of a generated sentence was seen in training with the
        token that follows it, or its context was never seen at all: no
        window of a generated sentence has a zero count. */
    lemma GeneratedWindowsSeen(draws: seq<nat>, i: nat)
      requires Valid()
      requires Generated(Seed(), draws).Some?
      requires order <= i < |Generated(Seed(), draws).value|
      ensures var s := Generated(Seed(), draws).value;
        TallyOf(s[i - order..i], s[i]).Untrained? || TallyOf(s[i - order..i], s[i]).num >= 1
    {
      var s := Generated(Seed(), draws).value;
      GeneratedFollowsAt(Seed(), draws, i);
      FollowsSeen(s, i);
    }

    /** A token that may follow the tokens before it has a non-zero count
        in the window ending there, unless that context was never seen. */
    lemma FollowsSeen(s: Sentence, i: nat)
      requires Valid() && order <= i < |s| && Follows(s[..i], s[i])
      ensures TallyOf(s[i - order..i], s[i]).Untrained? || TallyOf(s[i - order..i], s[i]).num >= 1
    {
      TakeThenDrop(s, i - order, i);
    }

    /** Whether every one of the first `n` generations ends within its
        draws. */
    ghost predicate AllGenerated(n: int, draws: nat -> seq<nat>)
      reads this
      requires Valid()
    {
      forall i: nat :: i < n ==> Generated(Seed(), draws(i)).Some?
    }

    /** The first `n` generated sentences, candidate `i` drawing
        `draws(i)`. */
    function Candidates(n: nat, draws: nat -> seq<nat>): (r: seq<Sentence>)
      reads this
      requires Valid() && AllGenerated(n, draws)
      ensures |r| == n
    {
      if n == 0 then [] else Candidates(n - 1, draws) + [Generated(Seed(), draws(n - 1)).value]
    }

    /** One more generation that ends within its draws. */
    lemma MoreCandidates(i: nat, draws: nat -> seq<nat>)
      requires Valid() && AllGenerated(i, draws) && Generated(Seed(), draws(i)).Some?
      ensures AllGenerated(i + 1, draws)
      ensures Candidates(i + 1, draws) == Candidates(i, draws) + [Generated(Seed(), draws(i)).value]
    {
    }

    /** `GenerateN`: generate `n` sentences and keep the best-scoring one by
        the fold `Best`; the empty sentence when `n <= 0`. `score` stands for
        the floating-point `score` method. */
    method GenerateN(n: int, draws: nat -> seq<nat>, score: Sentence -> real) returns (r: Option<Sentence>)
      requires Valid()
      ensures r.Some? <==> AllGenerated(n, draws)
      ensures n <= 0 ==> r == Some([])
      ensures r.Some? && n >= 0 ==> r.value == Best(Candidates(n, draws), score).val
    {
      var max := 0.0;
      var val: Sentence := [];
      ghost var cands: seq<Sentence> := [];
      var i := 0;
      while i < n
        invariant 0 <= i && (i == 0 || i <= n)
        invariant AllGenerated(i, draws) && cands == Candidates(i, draws)
        invariant Best(cands, score) == Pick(max, val)
      {
        var temp := Generate(draws(i));
        if temp.None? {
          assert !Generated(Seed(), draws(i)).Some?;
          return None;
        }
        BestSnoc(cands, temp.value, score);
        MoreCandidates(i, draws);
        cands := cands + [temp.value];
        var s := score(temp.value);
        if s >= max {
          max := s;
          val := temp.value;
        }
        i := i + 1;
      }
      return Some(val);
    }
  }
}
