/** Node ids: the four-step normalisation against "split into words and join with underscores". */
module Ids {

  /** What Python's Unicode tables say: word characters, compatibility normalisation, case folding. */
  datatype Tables = Tables(word: char -> bool, compose: string -> string, fold: char -> string) {

    predicate Sep(c: char) {
      c == '_' || !word(c)
    }

    function FoldAll(s: string): string {
      if s == [] then [] else fold(s[0]) + FoldAll(s[1..])
    }

    // ---- as written: two substitutions, a strip, a fold ----

    /** Every maximal run of characters with the property becomes one underscore. */
    function Runs(s: string, p: char -> bool): (r: string) {
      if s == [] then []
      else if !p(s[0]) then [s[0]] + Runs(s[1..], p)
      else if |s| > 1 && p(s[1]) then Runs(s[1..], p)
      else ['_'] + Runs(s[1..], p)
    }

    function StripLeft(s: string): string {
      if s != [] && s[0] == '_' then StripLeft(s[1..]) else s
    }

    function StripRight(s: string): string {
      if s != [] && s[|s| - 1] == '_' then StripRight(s[..|s| - 1]) else s
    }

    function Tidy(s: string): string {
      StripRight(StripLeft(Runs(Runs(s, c => !word(c)), c => c == '_')))
    }

    function NormalizeId(s: string): string {
      FoldAll(Tidy(compose(s)))
    }

    // ---- what it means ----

    /** The maximal pieces without separators. */
    function Words(s: string): (ws: seq<string>)
      ensures s != [] && !Sep(s[0]) ==> ws != []
    {
      if s == [] then []
      else if Sep(s[0]) then Words(s[1..])
      else if |s| == 1 || Sep(s[1]) then [[s[0]]] + Words(s[1..])
      else var ws := Words(s[1..]); [[s[0]] + ws[0]] + ws[1..]
    }
  }

  function Join(ws: seq<string>): string {
    if ws == [] then [] else if |ws| == 1 then ws[0] else ws[0] + ['_'] + Join(ws[1..])
  }

  // ---- the pipeline is "split, drop empties, join with one underscore" ----

  /** A substitution of separators keeps the words. */
  lemma {:induction false} RunsKeepWords(t: Tables, s: string, p: char -> bool)
    requires forall c :: p(c) ==> t.Sep(c)
    ensures t.Words(t.Runs(s, p)) == t.Words(s)
    ensures t.Runs(s, p) == [] <==> s == []
    ensures s != [] ==> t.Runs(s, p)[0] == if p(s[0]) then '_' else s[0]
  {
    if s != [] {
      RunsKeepWords(t, s[1..], p);
      var rest := t.Runs(s[1..], p);
      if !p(s[0]) {
        assert ([s[0]] + rest)[1..] == rest;
      } else if |s| == 1 || !p(s[1]) {
        assert (['_'] + rest)[1..] == rest;
      }
    }
  }

  ghost predicate AllWord(t: Tables, s: string) {
    forall i :: 0 <= i < |s| ==> t.word(s[i])
  }

  /** Only word characters, and no two underscores in a row. */
  ghost predicate Neat(t: Tables, s: string) {
    AllWord(t, s) && Spread(s)
  }

  /** No two underscores in a row. */
  ghost predicate Spread(s: string) {
    forall i, j {:trigger s[i], s[j]} :: 0 <= i < j < |s| && j <= i + 1 ==> s[i] != '_' || s[j] != '_'
  }

  ghost predicate Bare(s: string) {
    s != [] ==> s[0] != '_' && s[|s| - 1] != '_'
  }

  lemma {:induction false} NonWordsAreGone(t: Tables, s: string)
    requires t.word('_')
    ensures AllWord(t, t.Runs(s, c => !t.word(c)))
  {
    if s != [] {
      NonWordsAreGone(t, s[1..]);
    }
  }

  lemma {:induction false} UnderscoresAreSingle(t: Tables, s: string)
    requires AllWord(t, s)
    ensures Neat(t, t.Runs(s, c => c == '_'))
    ensures t.Runs(s, c => c == '_') == [] <==> s == []
    ensures s != [] ==> t.Runs(s, c => c == '_')[0] == s[0]
  {
    if s != [] {
      UnderscoresAreSingle(t, s[1..]);
    }
  }

  lemma {:induction false} StripLeftNeat(t: Tables, s: string)
    requires Neat(t, s)
    ensures Neat(t, t.StripLeft(s)) && t.Words(t.StripLeft(s)) == t.Words(s)
    ensures t.StripLeft(s) != [] ==> t.StripLeft(s)[0] != '_'
  {
    if s != [] && s[0] == '_' {
      StripLeftNeat(t, s[1..]);
    }
  }

  lemma {:induction false} TrailingUnderscore(t: Tables, s: string)
    ensures t.Words(s + ['_']) == t.Words(s)
  {
    if s == [] {
      assert [] + ['_'] == ['_'] && ['_'][1..] == [];
    } else {
      TrailingUnderscore(t, s[1..]);
      assert (s + ['_'])[1..] == s[1..] + ['_'];
    }
  }

  lemma {:induction false} StripRightNeat(t: Tables, s: string)
    requires Neat(t, s)
    ensures Neat(t, t.StripRight(s)) && t.Words(t.StripRight(s)) == t.Words(s)
    ensures t.StripRight(s) != [] ==> t.StripRight(s)[|t.StripRight(s)| - 1] != '_' && t.StripRight(s)[0] == s[0]
  {
    if s != [] && s[|s| - 1] == '_' {
      StripRightNeat(t, s[..|s| - 1]);
      TrailingUnderscore(t, s[..|s| - 1]);
      assert s[..|s| - 1] + ['_'] == s;
    }
  }

  lemma JoinCons(w: string, ws: seq<string>)
    requires ws != []
    ensures Join([w] + ws) == w + ['_'] + Join(ws)
  {
    assert ([w] + ws)[1..] == ws;
  }

  lemma Reassociate<T>(a: seq<T>, b: seq<T>, c: seq<T>, d: seq<T>)
    ensures a + (b + c + d) == (a + b) + c + d
  {
  }

  lemma JoinGrow(c: char, ws: seq<string>)
    requires ws != []
    ensures Join([[c] + ws[0]] + ws[1..]) == [c] + Join(ws)
  {
    var head, tail := ws[0], ws[1..];
    if |ws| > 1 {
      JoinCons([c] + head, tail);
      JoinCons(head, tail);
      assert [head] + tail == ws;
      Reassociate([c], head, ['_'], Join(tail));
    } else {
      assert [[c] + head] + tail == [[c] + head];
    }
  }

  /** A neat string without outer underscores is its own words, joined. */
  lemma {:induction false} NeatIsJoined(t: Tables, s: string)
    requires Neat(t, s) && Bare(s)
    ensures Join(t.Words(s)) == s
  {
    if |s| == 1 {
      assert s[1..] == [] && t.Words(s) == [[s[0]]];
    } else if |s| > 1 {
      var ws := t.Words(s[1..]);
      if s[1] == '_' {
        assert s[1..][1..] == s[2..] && s[2..][0] == s[2];
        NeatIsJoined(t, s[2..]);
        JoinCons([s[0]], ws);
        assert [s[0]] + ['_'] + s[2..] == s;
      } else {
        NeatIsJoined(t, s[1..]);
        JoinGrow(s[0], ws);
        assert [s[0]] + s[1..] == s;
      }
    }
  }

  /** The pipeline splits on separators, drops empty pieces, joins with one underscore, and folds. */
  lemma NormalizeJoinsWords(t: Tables, s: string)
    requires t.word('_')
    ensures t.NormalizeId(s) == t.FoldAll(Join(t.Words(t.compose(s))))
  {
    TidyJoinsWords(t, t.compose(s));
  }

  lemma TidyJoinsWords(t: Tables, s: string)
    requires t.word('_')
    ensures t.Tidy(s) == Join(t.Words(s))
    ensures Neat(t, t.Tidy(s)) && Bare(t.Tidy(s))
  {
    var words := t.Runs(s, c => !t.word(c));
    var single := t.Runs(words, c => c == '_');
    RunsKeepWords(t, s, c => !t.word(c));
    NonWordsAreGone(t, s);
    RunsKeepWords(t, words, c => c == '_');
    UnderscoresAreSingle(t, words);
    StripLeftNeat(t, single);
    StripRightNeat(t, t.StripLeft(single));
    NeatIsJoined(t, t.Tidy(s));
  }

  // ---- when normalising twice is normalising once ----

  /** What case folding does: never to or from an underscore, and never to nothing. */
  ghost predicate Folds(t: Tables) {
    && t.word('_') && t.fold('_') == ['_']
    && (forall c :: c != '_' ==> t.fold(c) != [] && '_' !in t.fold(c))
  }

  /** Composition works on each side of the character apart. */
  ghost predicate Divides(t: Tables, c: char) {
    forall a, b :: t.compose(a + [c] + b) == t.compose(a) + [c] + t.compose(b)
  }

  /** What composition does: it leaves nothing alone, works between underscores, leaves the joined words of a composed
      string alone, and is undone by folding on folded words that were composed. */
  ghost predicate Composes(t: Tables) {
    && t.compose([]) == [] && Divides(t, '_')
    && (forall s :: t.compose(t.Tidy(t.compose(s))) == t.Tidy(t.compose(s)))
    && (forall s :: AllWord(t, s) && t.compose(s) == s ==> t.FoldAll(t.compose(t.FoldAll(s))) == t.FoldAll(s))
  }

  /** Each word of `s`, folded and composed again, has only word characters. */
  ghost predicate FoldsToWords(t: Tables, s: string) {
    forall w :: w in t.Words(s) ==> AllWord(t, t.compose(t.FoldAll(w)))
  }

  lemma {:induction false} FoldSpreads(t: Tables, s: string)
    requires Folds(t)
    ensures Spread(t.FoldAll(s)) <==> Spread(s)
    ensures t.FoldAll(s) == [] <==> s == []
    ensures s != [] ==> (t.FoldAll(s)[0] == '_' <==> s[0] == '_')
    ensures s != [] ==> (t.FoldAll(s)[|t.FoldAll(s)| - 1] == '_' <==> s[|s| - 1] == '_')
  {
    if s != [] {
      FoldSpreads(t, s[1..]);
      var head, rest := t.fold(s[0]), t.FoldAll(s[1..]);
      assert s[0] != '_' ==> forall k :: 0 <= k < |head| ==> head[k] in head && head[k] != '_';
      assert |s| > 1 ==> s[1..][0] == s[1] && s[1..][|s| - 2] == s[|s| - 1];
      SpreadSplits(head, rest);
      SpreadSplits([s[0]], s[1..]);
      assert [s[0]] + s[1..] == s;
    }
  }

  lemma SpreadSplits(a: string, b: string)
    requires a != []
    ensures Spread(a + b) <==> Spread(a) && Spread(b) && (b != [] ==> a[|a| - 1] != '_' || b[0] != '_')
  {
    var s := a + b;
    assert forall i :: 0 <= i < |a| ==> s[i] == a[i];
    assert forall i :: 0 <= i < |b| ==> s[|a| + i] == b[i];
    if Spread(s) {
      forall i, j {:trigger b[i], b[j]} | 0 <= i < j < |b| && j <= i + 1
        ensures b[i] != '_' || b[j] != '_'
      {
        assert s[|a| + i] != '_' || s[|a| + j] != '_';
      }
    }
  }

  /** The folded length of the characters that are no underscores. */
  function Weight(t: Tables, s: string): nat {
    if s == [] then 0 else (if s[0] == '_' then 0 else |t.fold(s[0])|) + Weight(t, s[1..])
  }

  function Letters(s: string): nat {
    if s == [] then 0 else (if s[0] == '_' then 0 else 1) + Letters(s[1..])
  }

  lemma {:induction false} LettersAppend(a: string, b: string)
    ensures Letters(a + b) == Letters(a) + Letters(b)
  {
    if a == [] {
      assert a + b == b;
    } else {
      assert (a + b)[1..] == a[1..] + b;
      LettersAppend(a[1..], b);
    }
  }

  lemma {:induction false} AllLetters(s: string)
    requires '_' !in s
    ensures Letters(s) == |s|
  {
    if s != [] { AllLetters(s[1..]); }
  }

  lemma {:induction false} FoldedLetters(t: Tables, s: string)
    requires Folds(t)
    ensures Letters(t.FoldAll(s)) == Weight(t, s)
  {
    if s != [] {
      FoldedLetters(t, s[1..]);
      LettersAppend(t.fold(s[0]), t.FoldAll(s[1..]));
      if s[0] != '_' { AllLetters(t.fold(s[0])); } else { assert ['_'][1..] == []; }
    }
  }

  lemma {:induction false} WeightAppend(t: Tables, a: string, b: string)
    ensures Weight(t, a + b) == Weight(t, a) + Weight(t, b)
  {
    if a == [] {
      assert a + b == b;
    } else {
      assert (a + b)[1..] == a[1..] + b;
      WeightAppend(t, a[1..], b);
    }
  }

  /** Joining the words drops every character that is no word character, and nothing else of any weight. */
  lemma {:induction false} WeightOfWords(t: Tables, s: string)
    requires Folds(t)
    ensures Weight(t, Join(t.Words(s))) <= Weight(t, s)
    ensures Weight(t, Join(t.Words(s))) == Weight(t, s) <==> AllWord(t, s)
  {
    if s != [] {
      var ws := t.Words(s[1..]);
      WeightOfWords(t, s[1..]);
      assert AllWord(t, s) <==> t.word(s[0]) && AllWord(t, s[1..]) by { assert s == [s[0]] + s[1..]; }
      if !t.Sep(s[0]) {
        var one := [s[0]];
        assert one[1..] == [] && Weight(t, one) == |t.fold(s[0])|;
        if |s| == 1 || t.Sep(s[1]) {
          if ws == [] {
            assert t.Words(s) == [one];
          } else {
            JoinCons(one, ws);
            WeightAppend(t, one + ['_'], Join(ws));
            WeightAppend(t, one, ['_']);
            assert ['_'][1..] == [];
          }
        } else {
          JoinGrow(s[0], ws);
          WeightAppend(t, one, Join(ws));
        }
      }
    }
  }

  /** Tidying changes what a string folds to, unless the string is tidy. */
  lemma TidyFoldsAlikeIff(t: Tables, s: string)
    requires Folds(t) && Spread(s) && Bare(s)
    ensures t.FoldAll(t.Tidy(s)) == t.FoldAll(s) <==> AllWord(t, s)
  {
    TidyJoinsWords(t, s);
    WeightOfWords(t, s);
    FoldedLetters(t, s);
    FoldedLetters(t, t.Tidy(s));
    if AllWord(t, s) { NeatIsJoined(t, s); }
  }

  lemma {:induction false} FoldAppend(t: Tables, a: string, b: string)
    ensures t.FoldAll(a + b) == t.FoldAll(a) + t.FoldAll(b)
  {
    if a == [] {
      assert a + b == b;
    } else {
      assert (a + b)[1..] == a[1..] + b;
      FoldAppend(t, a[1..], b);
    }
  }

  /** Folding and composing joined words is doing so word by word. */
  lemma {:induction false} JoinedFoldsToWords(t: Tables, ws: seq<string>)
    requires Folds(t) && Composes(t)
    ensures AllWord(t, t.compose(t.FoldAll(Join(ws)))) <==> forall w :: w in ws ==> AllWord(t, t.compose(t.FoldAll(w)))
  {
    if |ws| > 1 {
      var w, rest := ws[0], ws[1..];
      JoinedFoldsToWords(t, rest);
      FoldAppend(t, w + ['_'], Join(rest));
      FoldAppend(t, w, ['_']);
      assert ['_'][1..] == [] && t.FoldAll(['_']) == ['_'];
      AllWordJoins(t, t.compose(t.FoldAll(w)), t.compose(t.FoldAll(Join(rest))));
      assert ws == [w] + rest;
    }
  }

  lemma AllWordJoins(t: Tables, a: string, b: string)
    requires t.word('_')
    ensures AllWord(t, a + ['_'] + b) <==> AllWord(t, a) && AllWord(t, b)
  {
    var s := a + ['_'] + b;
    assert forall i :: 0 <= i < |a| ==> s[i] == a[i];
    assert forall i :: 0 <= i < |b| ==> s[|a| + 1 + i] == b[i];
  }

  /** Normalising is idempotent on `s` exactly when every word of `s`, folded and composed, has only word characters. */
  lemma IdempotentIff(t: Tables, s: string)
    requires Folds(t) && Composes(t)
    ensures t.NormalizeId(t.NormalizeId(s)) == t.NormalizeId(s) <==> FoldsToWords(t, t.compose(s))
  {
    var tidy, id := t.Tidy(t.compose(s)), t.NormalizeId(s);
    TidyJoinsWords(t, t.compose(s));
    JoinedFoldsToWords(t, t.Words(t.compose(s)));
    FoldSpreads(t, tidy);
    FoldSpreads(t, t.compose(id));
    TidyFoldsAlikeIff(t, t.compose(id));
  }

  lemma OneWord(t: Tables, c: char)
    requires t.word(c) && c != '_'
    ensures t.Words([c]) == [[c]] && Join([[c]]) == [c] && t.FoldAll([c]) == t.fold(c)
  {
    assert [c][1..] == [];
  }

  /** The documented idempotence fails: a dotted capital I folds to an i and a combining dot, which do not compose, and
      the dot is dropped by the next run. */
  lemma NotAlwaysIdempotent(t: Tables)
    requires Folds(t) && Composes(t) && t.word('\U{0130}') && t.fold('\U{0130}') == ['i', '\U{0307}']
    requires !t.word('\U{0307}')
    requires t.compose(['\U{0130}']) == ['\U{0130}'] && t.compose(['i', '\U{0307}']) == ['i', '\U{0307}']
    ensures t.NormalizeId(t.NormalizeId(['\U{0130}'])) != t.NormalizeId(['\U{0130}'])
  {
    OneWord(t, '\U{0130}');
    IdempotentIff(t, ['\U{0130}']);
    assert ['\U{0130}'] in t.Words(['\U{0130}']);
    assert ['i', '\U{0307}'][1] == '\U{0307}';
  }

  /** A combining mark alone does no harm: a j with caron folds to a j and a caron, but composition restores the letter. */
  lemma RecomposedIsIdempotent(t: Tables)
    requires Folds(t) && Composes(t) && t.word('\U{01f0}') && t.fold('\U{01f0}') == ['j', '\U{030c}']
    requires !t.word('\U{030c}')
    requires t.compose(['\U{01f0}']) == ['\U{01f0}'] && t.compose(['j', '\U{030c}']) == ['\U{01f0}']
    ensures t.NormalizeId(['\U{01f0}']) == ['j', '\U{030c}']
    ensures t.NormalizeId(t.NormalizeId(['\U{01f0}'])) == t.NormalizeId(['\U{01f0}'])
  {
    OneWord(t, '\U{01f0}');
    NormalizeJoinsWords(t, ['\U{01f0}']);
    IdempotentIff(t, ['\U{01f0}']);
  }

  // ---- ids made of parts ----

  function StripEdgesLeft(s: string): string {
    if s != [] && (s[0] == '_' || s[0] == '.') then StripEdgesLeft(s[1..]) else s
  }

  function StripEdges(s: string): string {
    if s != [] && (s[|s| - 1] == '_' || s[|s| - 1] == '.') then StripEdges(s[..|s| - 1]) else StripEdgesLeft(s)
  }

  lemma {:induction false} LeftEdgeIs(s: string) returns (i: nat)
    ensures i <= |s| && StripEdgesLeft(s) == s[i..] && forall k :: 0 <= k < i ==> s[k] in {'_', '.'}
    ensures i < |s| ==> s[i] !in {'_', '.'}
  {
    if s != [] && (s[0] == '_' || s[0] == '.') {
      var k := LeftEdgeIs(s[1..]);
      i := k + 1;
      assert s[1..][k..] == s[i..];
    } else {
      i := 0;
    }
  }

  /** Only underscores and dots are stripped, and all of them at both edges. */
  lemma {:induction false} EdgesAre(s: string) returns (i: nat, j: nat)
    ensures i <= j <= |s| && StripEdges(s) == s[i..j]
    ensures forall k :: 0 <= k < |s| && !(i <= k < j) ==> s[k] in {'_', '.'}
    ensures i < j ==> s[i] !in {'_', '.'} && s[j - 1] !in {'_', '.'}
  {
    if s != [] && (s[|s| - 1] == '_' || s[|s| - 1] == '.') {
      i, j := EdgesAre(s[..|s| - 1]);
      assert s[..|s| - 1][i..j] == s[i..j];
    } else {
      i := LeftEdgeIs(s);
      j := |s|;
    }
  }

  /** The nonempty parts, each changed by `f`. */
  function Mapped(parts: seq<string>, f: string -> string): seq<string> {
    if parts == [] then []
    else (if parts[0] == "" then [] else [f(parts[0])]) + Mapped(parts[1..], f)
  }

  function MakeId(t: Tables, parts: seq<string>): string {
    t.NormalizeId(Join(Mapped(parts, StripEdges)))
  }

  lemma GrowFirst(c: char, ws: seq<string>, more: seq<string>)
    requires ws != []
    ensures [[c] + (ws + more)[0]] + (ws + more)[1..] == ([[c] + ws[0]] + ws[1..]) + more
  {
  }

  /** Composed words on both sides of a separator that composition respects. */
  lemma {:induction false} ComposedWordsSplit(t: Tables, a: string, c: char, b: string)
    requires t.Sep(c) && Divides(t, c)
    ensures t.Words(t.compose(a + [c] + b)) == t.Words(t.compose(a)) + t.Words(t.compose(b))
  {
    SeparatorSplits(t, t.compose(a), c, t.compose(b));
  }

  lemma {:induction false} SeparatorSplits(t: Tables, a: string, c: char, b: string)
    requires t.Sep(c)
    ensures t.Words(a + [c] + b) == t.Words(a) + t.Words(b)
  {
    if a == [] {
      assert ([] + [c] + b)[1..] == b;
    } else {
      var whole, ws := a + [c] + b, t.Words(a[1..]);
      SeparatorSplits(t, a[1..], c, b);
      assert whole[0] == a[0] && whole[1..] == a[1..] + [c] + b;
      if t.Sep(a[0]) {
      } else if |a| == 1 || t.Sep(a[1]) {
        assert [[a[0]]] + (ws + t.Words(b)) == ([[a[0]]] + ws) + t.Words(b);
      } else {
        GrowFirst(a[0], ws, t.Words(b));
      }
    }
  }

  /** What the tables promise of the characters stripped from the edges of parts. */
  ghost predicate EdgesDivide(t: Tables) {
    t.word('_') && !t.word('.') && t.compose([]) == [] && Divides(t, '_') && Divides(t, '.')
  }

  lemma {:induction false} LeftEdgeDropped(t: Tables, s: string)
    requires EdgesDivide(t)
    ensures t.Words(t.compose(StripEdgesLeft(s))) == t.Words(t.compose(s))
  {
    if s != [] && (s[0] == '_' || s[0] == '.') {
      LeftEdgeDropped(t, s[1..]);
      ComposedWordsSplit(t, [], s[0], s[1..]);
      assert [] + [s[0]] + s[1..] == s;
    }
  }

  lemma {:induction false} EdgesDropped(t: Tables, s: string)
    requires EdgesDivide(t)
    ensures t.Words(t.compose(StripEdges(s))) == t.Words(t.compose(s))
  {
    if s != [] && (s[|s| - 1] == '_' || s[|s| - 1] == '.') {
      EdgesDropped(t, s[..|s| - 1]);
      ComposedWordsSplit(t, s[..|s| - 1], s[|s| - 1], []);
      assert s[..|s| - 1] + [s[|s| - 1]] + [] == s;
    } else {
      LeftEdgeDropped(t, s);
    }
  }

  /** The words of all parts, in order. */
  function AllWords(t: Tables, parts: seq<string>): seq<string> {
    if parts == [] then [] else t.Words(t.compose(parts[0])) + AllWords(t, parts[1..])
  }

  lemma {:induction false} JoinedWords(t: Tables, parts: seq<string>)
    requires EdgesDivide(t)
    ensures t.Words(t.compose(Join(parts))) == AllWords(t, parts)
  {
    if |parts| == 1 {
      assert AllWords(t, parts[1..]) == [];
    } else if |parts| > 1 {
      JoinedWords(t, parts[1..]);
      ComposedWordsSplit(t, parts[0], '_', Join(parts[1..]));
    }
  }

  lemma {:induction false} MappedWords(t: Tables, parts: seq<string>, f: string -> string)
    requires t.compose([]) == []
    requires forall p :: t.Words(t.compose(f(p))) == t.Words(t.compose(p))
    ensures AllWords(t, Mapped(parts, f)) == AllWords(t, parts)
  {
    if parts != [] {
      MappedWords(t, parts[1..], f);
      var rest := Mapped(parts[1..], f);
      assert ([f(parts[0])] + rest)[1..] == rest;
      assert [] + rest == rest && t.Words("") == [];
      assert t.Words("") + AllWords(t, parts[1..]) == AllWords(t, parts[1..]);
    }
  }

  /** An id made of parts is the normalised id of the raw parts joined: the words of all parts, whatever their edges. */
  lemma MakeIdIsNormalizeId(t: Tables, parts: seq<string>)
    requires EdgesDivide(t)
    ensures MakeId(t, parts) == t.NormalizeId(Join(parts))
    ensures MakeId(t, parts) == t.FoldAll(Join(AllWords(t, parts)))
  {
    forall p
      ensures t.Words(t.compose(StripEdges(p))) == t.Words(t.compose(p))
    {
      EdgesDropped(t, p);
    }
    MappedWords(t, parts, StripEdges);
    JoinedWords(t, Mapped(parts, StripEdges));
    JoinedWords(t, parts);
    NormalizeJoinsWords(t, Join(parts));
    NormalizeJoinsWords(t, Join(Mapped(parts, StripEdges)));
  }
}
