/**
 * The word-frequency analyser behind getNoteWordFrequencyDescending: lower-case
 * the text, split it on maximal runs of non-letters, drop empty pieces, count
 * each distinct word, and order the words by non-increasing count.
 */
module WordFrequency {
  import opened Wrappers
  import opened Chars
  import opened Sorting

  /** String.toLowerCase, one character at a time. */
  function LowerCase(s: string, cc: CharClass): (r: string)
    ensures |r| == |s|
    ensures forall i :: 0 <= i < |s| ==> r[i] == cc.toLower(s[i])
  {
    if s == [] then [] else [cc.toLower(s[0])] + LowerCase(s[1..], cc)
  }

  /** The letters of s, in order. */
  function Letters(s: string, cc: CharClass): string
  {
    if s == [] then [] else (if cc.isLetter(s[0]) then [s[0]] else []) + Letters(s[1..], cc)
  }

  /** Drops a leading run of non-letters. */
  function SkipSeparators(s: string, cc: CharClass): (r: string)
    ensures |r| <= |s|
    ensures r == [] || cc.isLetter(r[0])
    ensures Letters(r, cc) == Letters(s, cc)
  {
    if s == [] || cc.isLetter(s[0]) then s else SkipSeparators(s[1..], cc)
  }

  /**
   * s.split("\\P{L}+") before the removal of trailing empty pieces: the pieces
   * of s between maximal runs of non-letters, with an empty first piece when s
   * starts with a separator and an empty last piece when it ends with one.
   * Every piece is made of letters only.
   */
  function Split(s: string, cc: CharClass): (pieces: seq<string>)
    ensures |pieces| >= 1
    ensures forall k, i :: 0 <= k < |pieces| && 0 <= i < |pieces[k]| ==> cc.isLetter(pieces[k][i])
    decreases |s|
  {
    if s == [] then [[]]
    else if cc.isLetter(s[0]) then
      var rest := Split(s[1..], cc);
      [[s[0]] + rest[0]] + rest[1..]
    else
      [[]] + Split(SkipSeparators(s[1..], cc), cc)
  }

  /** The concatenation of a sequence of strings. */
  function Flatten(ps: seq<string>): string
  {
    if ps == [] then [] else ps[0] + Flatten(ps[1..])
  }

  /** filter(word -> !word.isEmpty()) */
  function NonEmpty(ps: seq<string>): (r: seq<string>)
    ensures forall k :: 0 <= k < |r| ==> r[k] != [] && r[k] in ps
  {
    if ps == [] then []
    else (if ps[0] != [] then [ps[0]] else []) + NonEmpty(ps[1..])
  }

  /** The words the analyser counts: the non-empty pieces of the lower-cased text. */
  function Tokens(text: string, cc: CharClass): seq<string>
  {
    NonEmpty(Split(LowerCase(text, cc), cc))
  }

  /** Number of occurrences of w in ts. */
  function Occurrences(ts: seq<string>, w: string): nat
  {
    if ts == [] then 0
    else Occurrences(ts[..|ts| - 1], w) + (if ts[|ts| - 1] == w then 1 else 0)
  }

  /** The distinct elements of ts, in order of first appearance. */
  function Distinct(ts: seq<string>): (r: seq<string>)
    ensures NoDup(r)
    ensures forall w :: w in r <==> w in ts
  {
    if ts == [] then []
    else
      var d := Distinct(ts[..|ts| - 1]);
      assert ts == ts[..|ts| - 1] + [ts[|ts| - 1]];
      if ts[|ts| - 1] in d then d else d + [ts[|ts| - 1]]
  }

  /** groupingBy(word -> word, counting()) */
  function Frequencies(ts: seq<string>): map<string, nat>
  {
    map w | w in ts :: Occurrences(ts, w)
  }

  /** A word's count, zero for a word that is not a key. */
  function ByCount(counts: map<string, nat>): string -> int
  {
    w => if w in counts then counts[w] else 0
  }

  /**
   * The LinkedHashMap the analyser returns: the counts, and the order in which
   * iteration visits the words.
   */
  datatype WordStats = WordStats(counts: map<string, nat>, order: seq<string>)

  const NoWords := WordStats(map[], [])

  /**
   * Grouping and the descending sort. The grouped entries reach the sort in
   * order of first appearance; the sort is stable, so equal counts keep that
   * order (Java's HashMap leaves it unspecified).
   */
  function Summarise(ts: seq<string>): WordStats
  {
    var counts := Frequencies(ts);
    WordStats(counts, SortDesc(Distinct(ts), ByCount(counts)))
  }

  /** The analysis of a note's text; null or blank text gives no words. */
  function Analyse(text: Option<string>, cc: CharClass): WordStats
  {
    if text.None? || IsBlank(text.value, cc) then NoWords
    else Summarise(Tokens(text.value, cc))
  }

  /** The words a note's text contributes: none when the text is null or blank, else its tokens. */
  function Words(text: Option<string>, cc: CharClass): (ts: seq<string>)
    ensures forall k :: 0 <= k < |ts| ==> ts[k] != [] && forall i :: 0 <= i < |ts[k]| ==> cc.isLetter(ts[k][i])
  {
    if text.None? || IsBlank(text.value, cc) then []
    else
      TokensAreWords(text.value, cc);
      Tokens(text.value, cc)
  }

  // ---------------------------------------------------------------- tokens

  lemma {:induction false} FlattenAppend(a: seq<string>, b: seq<string>)
    ensures Flatten(a + b) == Flatten(a) + Flatten(b)
  {
    if a != [] {
      assert (a + b)[0] == a[0];
      assert (a + b)[1..] == a[1..] + b;
      FlattenAppend(a[1..], b);
      calc {
        Flatten(a + b);
        a[0] + Flatten(a[1..] + b);
        a[0] + (Flatten(a[1..]) + Flatten(b));
        (a[0] + Flatten(a[1..])) + Flatten(b);
      }
    } else {
      assert a + b == b;
    }
  }

  /** Split loses only separators: its pieces concatenate to the letters of s. */
  lemma {:induction false} SplitKeepsLetters(s: string, cc: CharClass)
    ensures Flatten(Split(s, cc)) == Letters(s, cc)
    decreases |s|
  {
    if s == [] {
    } else if cc.isLetter(s[0]) {
      var rest := Split(s[1..], cc);
      SplitKeepsLetters(s[1..], cc);
      assert rest == [rest[0]] + rest[1..];
      FlattenAppend([rest[0]], rest[1..]);
      FlattenAppend([[s[0]] + rest[0]], rest[1..]);
    } else {
      SplitKeepsLetters(SkipSeparators(s[1..], cc), cc);
      FlattenAppend([[]], Split(SkipSeparators(s[1..], cc), cc));
    }
  }

  lemma {:induction false} NonEmptyKeepsFlatten(ps: seq<string>)
    ensures Flatten(NonEmpty(ps)) == Flatten(ps)
  {
    if ps != [] {
      NonEmptyKeepsFlatten(ps[1..]);
      var head := if ps[0] != [] then [ps[0]] else [];
      FlattenAppend(head, NonEmpty(ps[1..]));
    }
  }

  /**
   * Every counted word is non-empty and made of letters only, and the words,
   * concatenated in order, are exactly the letters of the lower-cased text.
   */
  lemma TokensAreWords(text: string, cc: CharClass)
    ensures forall k :: 0 <= k < |Tokens(text, cc)| ==> Tokens(text, cc)[k] != []
    ensures forall k, i :: 0 <= k < |Tokens(text, cc)| && 0 <= i < |Tokens(text, cc)[k]|
              ==> cc.isLetter(Tokens(text, cc)[k][i])
    ensures Flatten(Tokens(text, cc)) == Letters(LowerCase(text, cc), cc)
  {
    var ps := Split(LowerCase(text, cc), cc);
    SplitKeepsLetters(LowerCase(text, cc), cc);
    NonEmptyKeepsFlatten(ps);
    forall k, i | 0 <= k < |Tokens(text, cc)| && 0 <= i < |Tokens(text, cc)[k]|
      ensures cc.isLetter(Tokens(text, cc)[k][i])
    {
      var t := Tokens(text, cc)[k];
      assert t in ps;
      var j :| 0 <= j < |ps| && ps[j] == t;
      assert ps[j][i] == t[i];
    }
  }

  lemma {:induction false} NoLettersNoWords(ps: seq<string>)
    requires forall k :: 0 <= k < |ps| ==> ps[k] != []
    requires Flatten(ps) == []
    ensures ps == []
  {
  }

  lemma {:induction false} LettersOfLetterless(s: string, cc: CharClass)
    requires forall i :: 0 <= i < |s| ==> !cc.isLetter(s[i])
    ensures Letters(s, cc) == []
  {
    if s != [] {
      LettersOfLetterless(s[1..], cc);
    }
  }

  // ---------------------------------------------------------------- counting

  lemma {:induction false} OccurrencesAbsent(ts: seq<string>, w: string)
    ensures Occurrences(ts, w) > 0 <==> w in ts
  {
    if ts != [] {
      var p := ts[..|ts| - 1];
      OccurrencesAbsent(p, w);
      assert ts == p + [ts[|ts| - 1]];
    }
  }

  /** Sum of the occurrence counts in ts of the words ws. */
  function SumOccurrences(ws: seq<string>, ts: seq<string>): int
  {
    if ws == [] then 0
    else SumOccurrences(ws[..|ws| - 1], ts) + Occurrences(ts, ws[|ws| - 1])
  }

  lemma {:induction false} SumOccurrencesStep(ws: seq<string>, ts: seq<string>, t: string)
    requires NoDup(ws)
    ensures SumOccurrences(ws, ts + [t]) == SumOccurrences(ws, ts) + (if t in ws then 1 else 0)
  {
    if ws != [] {
      var init := ws[..|ws| - 1];
      var last := ws[|ws| - 1];
      assert NoDup(init);
      assert ws == init + [last];
      assert last !in init;
      SumOccurrencesStep(init, ts, t);
      assert (ts + [t])[..|ts + [t]| - 1] == ts;
    }
  }

  lemma {:induction false} SumOccurrencesDistinct(ts: seq<string>)
    ensures SumOccurrences(Distinct(ts), ts) == |ts|
  {
    if ts != [] {
      var p := ts[..|ts| - 1];
      var t := ts[|ts| - 1];
      assert ts == p + [t];
      SumOccurrencesDistinct(p);
      var d := Distinct(p);
      SumOccurrencesStep(d, p, t);
      if t !in d {
        assert Distinct(ts) == d + [t];
        assert (d + [t])[..|d + [t]| - 1] == d;
        OccurrencesAbsent(p, t);
        assert (p + [t])[..|p + [t]| - 1] == p;
      }
    }
  }

  lemma {:induction false} SumByCountIsSumOccurrences(ws: seq<string>, ts: seq<string>)
    ensures SumBy(ws, ByCount(Frequencies(ts))) == SumOccurrences(ws, ts)
  {
    if ws != [] {
      var init := ws[..|ws| - 1];
      var last := ws[|ws| - 1];
      assert ws == init + [last];
      SumByCountIsSumOccurrences(init, ts);
      SumByAppend(init, last, ByCount(Frequencies(ts)));
      OccurrencesAbsent(ts, last);
    }
  }

  // ---------------------------------------------------------------- the result

  /** Each key is a word of ts, each word of ts is a key, and its value is its number of occurrences. */
  lemma SummariseCounts(ts: seq<string>)
    ensures forall w :: w in Summarise(ts).counts <==> w in ts
    ensures forall w :: w in Summarise(ts).counts ==>
              Summarise(ts).counts[w] == Occurrences(ts, w) >= 1
  {
    forall w | w in ts ensures Occurrences(ts, w) >= 1 {
      OccurrencesAbsent(ts, w);
    }
  }

  /**
   * Iteration visits every key exactly once, and counts never increase along
   * the way. No order among equal counts is promised.
   */
  lemma SummariseOrder(ts: seq<string>)
    ensures NoDup(Summarise(ts).order)
    ensures forall w :: w in Summarise(ts).order <==> w in Summarise(ts).counts
    ensures forall i, j :: 0 <= i < j < |Summarise(ts).order| ==>
              Summarise(ts).counts[Summarise(ts).order[i]] >= Summarise(ts).counts[Summarise(ts).order[j]]
  {
    var counts := Frequencies(ts);
    var d := Distinct(ts);
    var order := SortDesc(d, ByCount(counts));
    assert Summarise(ts) == WordStats(counts, order);
    SortDescSorted(d, ByCount(counts));
    SortDescNoDup(d, ByCount(counts));
    OrderHoldsKeys(ts, d, order);
    forall i, j | 0 <= i < j < |order| ensures counts[order[i]] >= counts[order[j]] {
      assert ByCount(counts)(order[i]) >= ByCount(counts)(order[j]);
      assert order[i] in counts && order[j] in counts;
    }
  }

  lemma OrderHoldsKeys(ts: seq<string>, d: seq<string>, order: seq<string>)
    requires d == Distinct(ts) && multiset(order) == multiset(d)
    ensures forall w :: w in order <==> w in Frequencies(ts)
  {
    forall w ensures w in order <==> w in Frequencies(ts) {
      assert w in order <==> w in multiset(order);
      assert w in d <==> w in multiset(d);
    }
  }

  /** The counts add up to the number of words. */
  lemma SummariseTotal(ts: seq<string>)
    ensures SumBy(Summarise(ts).order, ByCount(Summarise(ts).counts)) == |ts|
  {
    var counts := Frequencies(ts);
    SumBySortDesc(Distinct(ts), ByCount(counts), ByCount(counts));
    SumByCountIsSumOccurrences(Distinct(ts), ts);
    SumOccurrencesDistinct(ts);
  }

  /**
   * Null text, blank text and text without a letter (after lower-casing) all
   * give the empty result, not an error.
   */
  lemma AnalyseEmptyCases(text: Option<string>, cc: CharClass)
    requires
      || text.None?
      || IsBlank(text.value, cc)
      || forall i :: 0 <= i < |text.value| ==> !cc.isLetter(cc.toLower(text.value[i]))
    ensures Analyse(text, cc) == NoWords
  {
    if text.Some? && !IsBlank(text.value, cc) {
      var lower := LowerCase(text.value, cc);
      LettersOfLetterless(lower, cc);
      TokensAreWords(text.value, cc);
      NoLettersNoWords(Tokens(text.value, cc));
      assert Tokens(text.value, cc) == [];
      assert Frequencies([]) == map[];
    }
  }

  /** The keys of a non-empty analysis are non-empty, letters-only words of the lower-cased text. */
  lemma AnalyseKeysAreWords(text: string, cc: CharClass)
    requires !IsBlank(text, cc)
    ensures forall w :: w in Analyse(Some(text), cc).counts <==> w in Tokens(text, cc)
    ensures forall w :: w in Analyse(Some(text), cc).counts ==>
              w != [] && forall i :: 0 <= i < |w| ==> cc.isLetter(w[i])
  {
    var ts := Tokens(text, cc);
    SummariseCounts(ts);
    TokensAreWords(text, cc);
    forall w | w in ts ensures w != [] && forall i :: 0 <= i < |w| ==> cc.isLetter(w[i]) {
      var k :| 0 <= k < |ts| && ts[k] == w;
    }
  }

  lemma {:induction false} LowerCaseAppend(a: string, b: string, cc: CharClass)
    ensures LowerCase(a + b, cc) == LowerCase(a, cc) + LowerCase(b, cc)
  {
    var r := LowerCase(a + b, cc);
    assert forall i :: 0 <= i < |a| ==> r[i] == cc.toLower(a[i]);
    assert forall i :: |a| <= i < |a + b| ==> r[i] == cc.toLower(b[i - |a|]);
  }

  lemma {:induction false} AsciiLowerCaseKeeps(s: string)
    requires forall i :: 0 <= i < |s| ==> !('A' <= s[i] <= 'Z')
    ensures LowerCase(s, Ascii) == s
  {
  }

  lemma {:induction false} SkipWholeSeparator(sep: string, rest: string, cc: CharClass)
    requires forall i :: 0 <= i < |sep| ==> !cc.isLetter(sep[i])
    requires rest == [] || cc.isLetter(rest[0])
    ensures SkipSeparators(sep + rest, cc) == rest
  {
    if sep != [] {
      assert (sep + rest)[1..] == sep[1..] + rest;
      SkipWholeSeparator(sep[1..], rest, cc);
    }
  }

  /** A word followed by a whole separator run contributes exactly that word as a piece. */
  lemma {:induction false} SplitRun(w: string, sep: string, rest: string, cc: CharClass)
    requires forall i :: 0 <= i < |w| ==> cc.isLetter(w[i])
    requires sep != [] && forall i :: 0 <= i < |sep| ==> !cc.isLetter(sep[i])
    requires rest == [] || cc.isLetter(rest[0])
    ensures Split(w + sep + rest, cc) == [w] + Split(rest, cc)
    decreases |w|
  {
    var s := w + sep + rest;
    if w == [] {
      assert s == sep + rest;
      assert s[1..] == sep[1..] + rest;
      SkipWholeSeparator(sep[1..], rest, cc);
    } else {
      assert s[1..] == w[1..] + sep + rest;
      SplitRun(w[1..], sep, rest, cc);
      assert [w[0]] + w[1..] == w;
    }
  }

  /** Text made of letters only, the last word of most notes included, is one piece. */
  lemma {:induction false} SplitWord(w: string, cc: CharClass)
    requires forall i :: 0 <= i < |w| ==> cc.isLetter(w[i])
    ensures Split(w, cc) == [w]
  {
    if w != [] {
      SplitWord(w[1..], cc);
      assert [w[0]] + w[1..] == w;
    }
  }

  lemma OccurrencesSnoc(ts: seq<string>, t: string, w: string)
    ensures Occurrences(ts + [t], w) == Occurrences(ts, w) + (if t == w then 1 else 0)
  {
    assert (ts + [t])[..|ts + [t]| - 1] == ts;
  }

  lemma {:induction false} NonEmptyOfWords(ws: seq<string>)
    requires forall k :: 0 <= k < |ws| ==> ws[k] != []
    ensures NonEmpty(ws + [[]]) == ws
  {
    if ws != [] {
      assert (ws + [[]])[1..] == ws[1..] + [[]];
      NonEmptyOfWords(ws[1..]);
    }
  }

  /** Tokens are fixed once the lower-cased text and its pieces are known. */
  lemma TokensVia(text: string, lower: string, ws: seq<string>, cc: CharClass)
    requires LowerCase(text, cc) == lower
    requires Split(lower, cc) == ws + [[]]
    requires forall k :: 0 <= k < |ws| ==> ws[k] != []
    ensures Tokens(text, cc) == ws
  {
    NonEmptyOfWords(ws);
  }

  lemma FrequenciesAre(ts: seq<string>, m: map<string, nat>)
    requires forall w :: w in ts <==> w in m
    requires forall w :: w in m ==> m[w] == Occurrences(ts, w)
    ensures Frequencies(ts) == m
  {
  }

  /**
   * What getNoteWordFrequencyDescending returns, stated on the words of the
   * text: each word is a key, counted by its number of occurrences; the
   * iteration order visits every key once with non-increasing counts; and
   * the counts add up to the number of words.
   */
  lemma AnalyseSummarisesWords(text: Option<string>, cc: CharClass)
    ensures Analyse(text, cc) == Summarise(Words(text, cc))
    ensures forall w :: w in Analyse(text, cc).counts <==> w in Words(text, cc)
    ensures forall w :: w in Analyse(text, cc).counts ==>
              Analyse(text, cc).counts[w] == Occurrences(Words(text, cc), w) >= 1
    ensures NoDup(Analyse(text, cc).order)
    ensures forall w :: w in Analyse(text, cc).order <==> w in Analyse(text, cc).counts
    ensures forall i, j :: 0 <= i < j < |Analyse(text, cc).order| ==>
              Analyse(text, cc).counts[Analyse(text, cc).order[i]] >= Analyse(text, cc).counts[Analyse(text, cc).order[j]]
    ensures SumBy(Analyse(text, cc).order, ByCount(Analyse(text, cc).counts)) == |Words(text, cc)|
  {
    var ts := Words(text, cc);
    assert Summarise([]) == NoWords;
    SummariseCounts(ts);
    SummariseOrder(ts);
    SummariseTotal(ts);
  }

  /** The first word listed is a most frequent one. */
  lemma {:induction false} HeadIsMostFrequent(ts: seq<string>)
    requires ts != []
    ensures Summarise(ts).order != []
    ensures forall w :: w in Summarise(ts).order <==> w in Summarise(ts).counts
    ensures forall w :: w in Summarise(ts).counts ==> Summarise(ts).counts[Summarise(ts).order[0]] >= Summarise(ts).counts[w]
  {
    SummariseCounts(ts);
    SummariseOrder(ts);
    var s := Summarise(ts);
    assert ts[0] in s.counts;
    forall w | w in s.counts ensures s.counts[s.order[0]] >= s.counts[w] {
      var j :| 0 <= j < |s.order| && s.order[j] == w;
    }
  }
}
