/** A two-verse catalog worked through the queries: one verse tagged "Peace", one "Fear". */
module Scenario {
  import opened Types
  import opened Text
  import opened Seqs
  import opened VerseUtils

  const PeaceVerse := Verse("a", 2, 47, "", "", ["Peace"], "")
  const FearVerse := Verse("b", 2, 56, "", "", ["Fear"], "")
  const Catalog := [PeaceVerse, FearVerse]

  /** Tag lookup ignores case. */
  lemma ScenarioByTag()
    ensures VersesByTag(Catalog, "peace") == [PeaceVerse]
  {
    assert HasTag(PeaceVerse, "peace") by {
      assert Lower("Peace") == Lower("peace");
    }
    assert !HasTag(FearVerse, "peace") by {
      assert Lower("Fear")[0] != Lower("peace")[0];
    }
    var keep := v => HasTag(v, "peace");
    FilterConcat(keep, [PeaceVerse], [FearVerse]);
    assert Filter(keep, [PeaceVerse]) == [PeaceVerse] by {
      assert [PeaceVerse][1..] == [];
    }
    assert Filter(keep, [FearVerse]) == [] by {
      assert [FearVerse][1..] == [];
    }
    assert Catalog == [PeaceVerse] + [FearVerse];
  }

  /** The tag list is the two tags in order. */
  lemma ScenarioAllTags(r: seq<string>)
    requires StrictlySorted(r) && forall t :: t in r <==> t in TagUnion(Catalog)
    ensures r == ["Fear", "Peace"]
  {
    assert TagUnion(Catalog) == {"Peace", "Fear"} by {
      assert Catalog[..1] == [PeaceVerse];
      assert TagUnion([PeaceVerse]) == {"Peace"};
    }
    assert Below("Fear", "Peace");
    SortedByMembers(r, ["Fear", "Peace"]);
  }

  /** "fear" occurs nowhere in the first verse. */
  lemma PeaceMissesFear()
    ensures !MatchesQuery(PeaceVerse, "fear")
  {
    assert Lower("Peace") == "peace";
    IncludesTooLong("ace", "fear");
    assert "peace"[1..] == "eace" && "eace"[1..] == "ace";
    assert !("fear" <= "eace") by { assert "fear"[0] != "eace"[0]; }
    assert !("fear" <= "peace") by { assert "fear"[0] != "peace"[0]; }
    assert !Includes("peace", "fear");
    assert Lower("") == "";
  }

  /** Search finds the query inside a tag, ignoring case. */
  lemma ScenarioSearch()
    ensures SearchVerses(Catalog, "fear") == [FearVerse]
  {
    assert Lower("fear") == "fear";
    assert MatchesQuery(FearVerse, "fear") by {
      assert Lower("Fear") == "fear";
      assert Includes("fear", "fear");
    }
    PeaceMissesFear();
    var keep := v => MatchesQuery(v, Lower("fear"));
    FilterConcat(keep, [PeaceVerse], [FearVerse]);
    assert Filter(keep, [PeaceVerse]) == [] by {
      assert [PeaceVerse][1..] == [];
    }
    assert Filter(keep, [FearVerse]) == [FearVerse] by {
      assert [FearVerse][1..] == [];
    }
    assert Catalog == [PeaceVerse] + [FearVerse];
  }

  const Question := "I feel so much fear today"

  lemma ScenarioLower()
    ensures Lower(Question) == "i feel so much fear today"
  {
  }

  const Asked := ["i", "feel", "so", "much", "fear", "today"]

  lemma AskedJoined()
    ensures Join(Asked, ' ') == "i feel so much fear today"
  {
  }

  /** The question splits into six keywords, lower-cased. */
  lemma ScenarioKeywords()
    ensures Keywords(Question) == Asked
  {
    ScenarioLower();
    AskedJoined();
    assert forall k :: 0 <= k < |Asked| ==> ' ' !in Asked[k];
    SplitJoin(Asked, ' ');
  }

  /** Sums the score of the asked keywords front to back. */
  lemma ScenarioScoreSum(v: Verse)
    ensures Score(v, Asked) == KeywordScore(v, "i") + KeywordScore(v, "feel") + KeywordScore(v, "so")
      + KeywordScore(v, "much") + KeywordScore(v, "fear") + KeywordScore(v, "today")
  {
    var w5 := ["i", "feel", "so", "much", "fear"];
    var w4 := ["i", "feel", "so", "much"];
    var w3 := ["i", "feel", "so"];
    var w2 := ["i", "feel"];
    assert Asked[..5] == w5 && w5[..4] == w4 && w4[..3] == w3 && w3[..2] == w2;
    assert w2[..1] == ["i"] && ["i"][..0] == [];
    assert Score(v, ["i"]) == KeywordScore(v, "i");
    assert Score(v, w2) == Score(v, ["i"]) + KeywordScore(v, "feel");
    assert Score(v, w3) == Score(v, w2) + KeywordScore(v, "so");
    assert Score(v, w4) == Score(v, w3) + KeywordScore(v, "much");
    assert Score(v, w5) == Score(v, w4) + KeywordScore(v, "fear");
    assert Score(v, Asked) == Score(v, w5) + KeywordScore(v, "today");
  }

  /** No keyword occurs in the first verse. */
  lemma ScenarioPeaceScore()
    ensures Score(PeaceVerse, Asked) == 0
  {
    assert Lower("Peace") == "peace" && Lower("") == "";
    assert ["Peace"][..0] == [];
    forall k | k in ["feel", "much", "fear", "today"]
      ensures KeywordScore(PeaceVerse, k) == 0
    {
      IncludesTooLong("", k);
      IncludesFirstChar("peace", k);
    }
    ScenarioScoreSum(PeaceVerse);
  }

  /** Only "fear" occurs in the second verse, in its one tag: 2 points. */
  lemma ScenarioFearScore()
    ensures Score(FearVerse, Asked) == 2
  {
    assert Lower("Fear") == "fear" && Lower("") == "";
    assert ["Fear"][..0] == [];
    forall k | k in ["feel", "much", "today"]
      ensures KeywordScore(FearVerse, k) == 0
    {
      IncludesTooLong("", k);
      if k == "feel" {
        IncludesSameLength("fear", k);
      } else {
        IncludesFirstChar("fear", k);
      }
    }
    IncludesTooLong("", "fear");
    assert Includes("fear", "fear");
    assert KeywordScore(FearVerse, "fear") == 2;
    ScenarioScoreSum(FearVerse);
  }

  /** Only "fear" scores, and only against the "Fear" tag, so the question is answered by
      the second verse whatever the fallback draw. */
  lemma ScenarioAsk(randomIndex: nat)
    requires randomIndex < |Catalog|
    ensures Response(Catalog, Question, randomIndex) == FearVerse
  {
    ScenarioKeywords();
    ScenarioPeaceScore();
    ScenarioFearScore();
    assert Catalog[0] == PeaceVerse && Catalog[1] == FearVerse;
    assert Leader(Catalog, Asked, 1) == None;
    assert Leader(Catalog, Asked, 2) == Some(1);
  }
}
