/**
 * The analyser on the sentence "Java is cool, java is powerful!": with ASCII
 * tables it yields the words java, is, cool, java, is, powerful, counted as
 * java and is twice and cool and powerful once.
 */
module WordFrequencyExample {
  import opened Wrappers
  import opened Chars
  import opened WordFrequency

  // The sentence is given as its words and separator runs, text == "Java" + " " + s1,
  // s1 == "is" + " " + s2 and so on, so that the verifier reasons from SplitRun and
  // LowerCaseAppend one piece at a time instead of unfolding Split over a literal.

  /** Tables that agree with ASCII on which characters are letters. */
  ghost predicate AsciiLetters(cc: CharClass)
  {
    forall c :: cc.isLetter(c) == AsciiIsLetter(c)
  }

  ghost predicate NoUpper(s: string)
  {
    forall i :: 0 <= i < |s| ==> !('A' <= s[i] <= 'Z')
  }

  ghost predicate Sentence(text: string, s1: string, s2: string, s3: string, s4: string, s5: string)
  {
    && text == "Java" + " " + s1 && s1 == "is" + " " + s2 && s2 == "cool" + ", " + s3
    && s3 == "java" + " " + s4 && s4 == "is" + " " + s5 && s5 == "powerful" + "!"
  }

  lemma NoUpperAppend(a: string, b: string)
    requires NoUpper(a) && NoUpper(b)
    ensures NoUpper(a + b)
  {
    forall i | 0 <= i < |a + b| ensures !('A' <= (a + b)[i] <= 'Z') {
      if i >= |a| {
        assert (a + b)[i] == b[i - |a|];
      }
    }
  }

  lemma SentenceTailNoUpper(text: string, s1: string, s2: string, s3: string, s4: string, s5: string)
    requires Sentence(text, s1, s2, s3, s4, s5)
    ensures NoUpper(s1)
  {
    NoUpperAppend("powerful", "!");
    NoUpperAppend("is" + " ", s5);
    NoUpperAppend("java" + " ", s4);
    NoUpperAppend("cool" + ", ", s3);
    NoUpperAppend("is" + " ", s2);
  }

  lemma LowerCaseJ()
    ensures LowerCase(['J'], Ascii) == ['j']
  {
  }

  lemma JavaAtJ(rest: string)
    ensures "Java" + " " + rest == ['J'] + ("ava" + " " + rest)
    ensures "java" + " " + rest == ['j'] + ("ava" + " " + rest)
  {
  }

  lemma LowerCaseJava(rest: string)
    requires NoUpper(rest)
    ensures LowerCase("Java" + " " + rest, Ascii) == "java" + " " + rest
  {
    var t := "ava" + " " + rest;
    NoUpperAppend("ava" + " ", rest);
    AsciiLowerCaseKeeps(t);
    LowerCaseAppend(['J'], t, Ascii);
    LowerCaseJ();
    JavaAtJ(rest);
  }

  lemma ExampleLowerCase(text: string, s1: string, s2: string, s3: string, s4: string, s5: string)
    requires Sentence(text, s1, s2, s3, s4, s5)
    ensures LowerCase(text, Ascii) == "java" + " " + s1
  {
    SentenceTailNoUpper(text, s1, s2, s3, s4, s5);
    LowerCaseJava(s1);
  }

  lemma ExampleOccurrences(ts: seq<string>)
    requires ts == ["java", "is", "cool", "java", "is", "powerful"]
    ensures Occurrences(ts, "java") == 2 && Occurrences(ts, "is") == 2
    ensures Occurrences(ts, "cool") == 1 && Occurrences(ts, "powerful") == 1
  {
    var words := ["java", "is", "cool", "powerful"];
    var expected := [2, 2, 1, 1];
    var t0: seq<string> := [];
    var t1 := t0 + ["java"];
    var t2 := t1 + ["is"];
    var t3 := t2 + ["cool"];
    var t4 := t3 + ["java"];
    var t5 := t4 + ["is"];
    assert t5 + ["powerful"] == ts;
    forall k | 0 <= k < 4 ensures Occurrences(ts, words[k]) == expected[k] {
      var w := words[k];
      OccurrencesSnoc(t0, "java", w);
      OccurrencesSnoc(t1, "is", w);
      OccurrencesSnoc(t2, "cool", w);
      OccurrencesSnoc(t3, "java", w);
      OccurrencesSnoc(t4, "is", w);
      OccurrencesSnoc(t5, "powerful", w);
    }
    assert words[0] == "java" && words[1] == "is" && words[2] == "cool" && words[3] == "powerful";
  }

  lemma ExampleSplitTail(cc: CharClass, s3: string, s4: string, s5: string)
    requires AsciiLetters(cc)
    requires s3 == "java" + " " + s4 && s4 == "is" + " " + s5 && s5 == "powerful" + "!"
    ensures Split(s3, cc) == ["java", "is", "powerful", ""]
  {
    assert s5 == "powerful" + "!" + "";
    SplitRun("powerful", "!", "", cc);
    SplitRun("is", " ", s5, cc);
    SplitRun("java", " ", s4, cc);
  }

  lemma ExampleSplit(cc: CharClass, s0: string, s1: string, s2: string, s3: string, s4: string, s5: string)
    requires AsciiLetters(cc)
    requires s0 == "java" + " " + s1 && s1 == "is" + " " + s2 && s2 == "cool" + ", " + s3
    requires s3 == "java" + " " + s4 && s4 == "is" + " " + s5 && s5 == "powerful" + "!"
    ensures Split(s0, cc) == ["java", "is", "cool", "java", "is", "powerful", ""]
  {
    ExampleSplitTail(cc, s3, s4, s5);
    SplitRun("cool", ", ", s3, cc);
    SplitRun("is", " ", s2, cc);
    SplitRun("java", " ", s1, cc);
  }

  lemma ExampleTokens(text: string, s1: string, s2: string, s3: string, s4: string, s5: string)
    requires Sentence(text, s1, s2, s3, s4, s5)
    ensures Tokens(text, Ascii) == ["java", "is", "cool", "java", "is", "powerful"]
  {
    ExampleLowerCase(text, s1, s2, s3, s4, s5);
    ExampleSplit(Ascii, "java" + " " + s1, s1, s2, s3, s4, s5);
    TokensVia(text, "java" + " " + s1, ["java", "is", "cool", "java", "is", "powerful"], Ascii);
  }

  lemma ExampleFrequencies(ts: seq<string>)
    requires ts == ["java", "is", "cool", "java", "is", "powerful"]
    ensures Frequencies(ts) == map["java" := 2, "is" := 2, "cool" := 1, "powerful" := 1]
  {
    ExampleOccurrences(ts);
    var m := map["java" := 2, "is" := 2, "cool" := 1, "powerful" := 1];
    forall w ensures w in ts <==> w in m {
      assert w in ts <==> w == ts[0] || w == ts[1] || w == ts[2] || w == ts[3] || w == ts[4] || w == ts[5];
    }
    FrequenciesAre(ts, m);
  }

  /**
   * The service test's example, from its words on: "java" and "is" twice,
   * "cool" and "powerful" once, and iteration starts with "java" or "is".
   */
  lemma ExampleCounts(ts: seq<string>)
    requires ts == ["java", "is", "cool", "java", "is", "powerful"]
    ensures Summarise(ts).counts == map["java" := 2, "is" := 2, "cool" := 1, "powerful" := 1]
    ensures "java" in Summarise(ts).order
    ensures Summarise(ts).order[0] in {"java", "is"}
  {
    ExampleFrequencies(ts);
    ExampleHead(ts);
  }

  lemma ExampleHead(ts: seq<string>)
    requires Summarise(ts).counts == map["java" := 2, "is" := 2, "cool" := 1, "powerful" := 1]
    ensures "java" in Summarise(ts).order
    ensures Summarise(ts).order[0] in {"java", "is"}
  {
    SummariseCounts(ts);
    assert "java" in ts;
    HeadIsMostFrequent(ts);
  }

  /**
   * The whole analyser on the sentence: java and is twice, cool and powerful once,
   * and the listing starts with one of the two most frequent words.
   */
  lemma ExampleAnalyse(text: string, s1: string, s2: string, s3: string, s4: string, s5: string)
    requires Sentence(text, s1, s2, s3, s4, s5)
    ensures Analyse(Some(text), Ascii).counts == map["java" := 2, "is" := 2, "cool" := 1, "powerful" := 1]
    ensures "java" in Analyse(Some(text), Ascii).order
    ensures Analyse(Some(text), Ascii).order[0] in {"java", "is"}
  {
    assert text[0] == 'J';
    assert !IsBlank(text, Ascii);
    ExampleTokens(text, s1, s2, s3, s4, s5);
    ExampleCounts(Tokens(text, Ascii));
  }
}
