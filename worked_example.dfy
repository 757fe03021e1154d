/** The reply that the extractor's third stage exists for: prose around a
    Python-style list of findings, with single quotes and bare keys. */
module WorkedExample {
  import opened JsonValue
  import opened TextSearch
  import opened KeyQuoting
  import opened Repair
  import opened Extraction

  // The texts are written in pieces that each end in a non-word character,
  // so that the rewrite can be followed piece by piece.

  /** `[{'file': 'a.py', line: 3, comment: 'fix this'}]` */
  const ExampleSnippet: string :=
    "[{'" + "file'" + ": 'a." + "py', " + "line: " + "3, " + "comment: " + "'fix " + "this'}]"

  /** `Here you go: [{'file': 'a.py', line: 3, comment: 'fix this'}] thanks` */
  const ExampleReply: string := "Here you go: " + ExampleSnippet + " thanks"

  /** `[{"file": "a.py", "line": 3, "comment": "fix this"}]` */
  const ExampleRepaired: string :=
    "[{\"" + "file\"" + ": \"a." + "py\", " + "\"line\": " + "3, " + "\"comment\": " + "\"fix " + "this\"}]"

  lemma Piece0()
    ensures QuoteKeys("[{'") == "[{'"
  {
    var p := "[{'";
    CharStep(p, 2);
    assert QuoteRunsFrom(p, 2) == "'";
    CharStep(p, 1);
    assert QuoteRunsFrom(p, 1) == "{'";
    CharStep(p, 0);
    QuoteKeysIsRunWise(p);
  }

  lemma Piece1()
    ensures QuoteKeys("file'") == "file'"
  {
    var p := "file'";
    CharStep(p, 4);
    assert QuoteRunsFrom(p, 4) == "'";
    assert RunEnd(p, 3) == 4;
    assert RunEnd(p, 2) == 4;
    assert RunEnd(p, 1) == 4;
    CopiedRunStep(p, 0, 4);
    assert p[0..4] == "file";
    QuoteKeysIsRunWise(p);
  }

  lemma Piece2()
    ensures QuoteKeys(": 'a.") == ": 'a."
  {
    var p := ": 'a.";
    CharStep(p, 4);
    assert QuoteRunsFrom(p, 4) == ".";
    CopiedRunStep(p, 3, 4);
    assert p[3..4] == "a";
    assert QuoteRunsFrom(p, 3) == "a.";
    CharStep(p, 2);
    assert QuoteRunsFrom(p, 2) == "'a.";
    CharStep(p, 1);
    assert QuoteRunsFrom(p, 1) == " 'a.";
    CharStep(p, 0);
    QuoteKeysIsRunWise(p);
  }

  lemma Piece3()
    ensures QuoteKeys("py', ") == "py', "
  {
    var p := "py', ";
    CharStep(p, 4);
    assert QuoteRunsFrom(p, 4) == " ";
    CharStep(p, 3);
    assert QuoteRunsFrom(p, 3) == ", ";
    CharStep(p, 2);
    assert QuoteRunsFrom(p, 2) == "', ";
    assert RunEnd(p, 1) == 2;
    CopiedRunStep(p, 0, 2);
    assert p[0..2] == "py";
    QuoteKeysIsRunWise(p);
  }

  lemma Piece4()
    ensures QuoteKeys("line: ") == "\"line\": "
  {
    var p := "line: ";
    CharStep(p, 5);
    assert QuoteRunsFrom(p, 5) == " ";
    assert RunEnd(p, 3) == 4;
    assert RunEnd(p, 2) == 4;
    assert RunEnd(p, 1) == 4;
    QuotedRunStep(p, 0, 4);
    assert p[0..4] == "line";
    QuoteKeysIsRunWise(p);
  }

  lemma Piece5()
    ensures QuoteKeys("3, ") == "3, "
  {
    var p := "3, ";
    CharStep(p, 2);
    assert QuoteRunsFrom(p, 2) == " ";
    CharStep(p, 1);
    assert QuoteRunsFrom(p, 1) == ", ";
    CopiedRunStep(p, 0, 1);
    assert p[0..1] == "3";
    QuoteKeysIsRunWise(p);
  }

  lemma Piece6()
    ensures QuoteKeys("comment: ") == "\"comment\": "
  {
    var p := "comment: ";
    CharStep(p, 8);
    assert QuoteRunsFrom(p, 8) == " ";
    assert RunEnd(p, 6) == 7;
    assert RunEnd(p, 5) == 7;
    assert RunEnd(p, 4) == 7;
    assert RunEnd(p, 3) == 7;
    assert RunEnd(p, 2) == 7;
    assert RunEnd(p, 1) == 7;
    QuotedRunStep(p, 0, 7);
    assert p[0..7] == "comment";
    QuoteKeysIsRunWise(p);
  }

  lemma Piece7()
    ensures QuoteKeys("'fix ") == "'fix "
  {
    var p := "'fix ";
    CharStep(p, 4);
    assert QuoteRunsFrom(p, 4) == " ";
    assert RunEnd(p, 3) == 4;
    assert RunEnd(p, 2) == 4;
    CopiedRunStep(p, 1, 4);
    assert p[1..4] == "fix";
    assert QuoteRunsFrom(p, 1) == "fix ";
    CharStep(p, 0);
    QuoteKeysIsRunWise(p);
  }

  lemma Piece8()
    ensures QuoteKeys("this'}]") == "this'}]"
  {
    var p := "this'}]";
    CharStep(p, 6);
    assert QuoteRunsFrom(p, 6) == "]";
    CharStep(p, 5);
    assert QuoteRunsFrom(p, 5) == "}]";
    CharStep(p, 4);
    assert QuoteRunsFrom(p, 4) == "'}]";
    assert RunEnd(p, 3) == 4;
    assert RunEnd(p, 2) == 4;
    assert RunEnd(p, 1) == 4;
    CopiedRunStep(p, 0, 4);
    assert p[0..4] == "this";
    QuoteKeysIsRunWise(p);
  }

  lemma FirstThreeKeysQuoted()
    ensures QuoteKeys("[{'" + "file'" + ": 'a.") == "[{'" + "file'" + ": 'a."
  {
    Piece0();
    Piece1();
    Piece2();
    QuoteKeysConcat("[{'", "file'");
    QuoteKeysConcat("[{'" + "file'", ": 'a.");
  }

  lemma FirstFiveKeysQuoted()
    ensures QuoteKeys("[{'" + "file'" + ": 'a." + "py', " + "line: ") == "[{'" + "file'" + ": 'a." + "py', " + "\"line\": "
  {
    FirstThreeKeysQuoted();
    Piece3();
    Piece4();
    QuoteKeysConcat("[{'" + "file'" + ": 'a.", "py', ");
    QuoteKeysConcat("[{'" + "file'" + ": 'a." + "py', ", "line: ");
  }

  lemma FirstSevenKeysQuoted()
    ensures QuoteKeys("[{'" + "file'" + ": 'a." + "py', " + "line: " + "3, " + "comment: ") == "[{'" + "file'" + ": 'a." + "py', " + "\"line\": " + "3, " + "\"comment\": "
  {
    FirstFiveKeysQuoted();
    Piece5();
    Piece6();
    QuoteKeysConcat("[{'" + "file'" + ": 'a." + "py', " + "line: ", "3, ");
    QuoteKeysConcat("[{'" + "file'" + ": 'a." + "py', " + "line: " + "3, ", "comment: ");
  }

  /** The rewrite of the whole bracketed part, piece by piece. */
  lemma ExampleKeysQuoted()
    ensures QuoteKeys(ExampleSnippet) == "[{'" + "file'" + ": 'a." + "py', " + "\"line\": " + "3, " + "\"comment\": " + "'fix " + "this'}]"
  {
    FirstSevenKeysQuoted();
    Piece7();
    Piece8();
    QuoteKeysConcat("[{'" + "file'" + ": 'a." + "py', " + "line: " + "3, " + "comment: ", "'fix ");
    QuoteKeysConcat("[{'" + "file'" + ": 'a." + "py', " + "line: " + "3, " + "comment: " + "'fix ", "this'}]");
  }

  lemma FirstThreeQuotesNormalized()
    ensures NormalizeQuotes("[{'" + "file'" + ": 'a.") == "[{\"" + "file\"" + ": \"a."
  {
    assert NormalizeQuotes("[{'") == "[{\"";
    assert NormalizeQuotes("file'") == "file\"";
    assert NormalizeQuotes(": 'a.") == ": \"a.";
    NormalizeQuotesConcat("[{'", "file'");
    NormalizeQuotesConcat("[{'" + "file'", ": 'a.");
  }

  lemma FirstFiveQuotesNormalized()
    ensures NormalizeQuotes("[{'" + "file'" + ": 'a." + "py', " + "\"line\": ") == "[{\"" + "file\"" + ": \"a." + "py\", " + "\"line\": "
  {
    FirstThreeQuotesNormalized();
    assert NormalizeQuotes("py', ") == "py\", ";
    assert NormalizeQuotes("\"line\": ") == "\"line\": ";
    NormalizeQuotesConcat("[{'" + "file'" + ": 'a.", "py', ");
    NormalizeQuotesConcat("[{'" + "file'" + ": 'a." + "py', ", "\"line\": ");
  }

  lemma FirstSevenQuotesNormalized()
    ensures NormalizeQuotes("[{'" + "file'" + ": 'a." + "py', " + "\"line\": " + "3, " + "\"comment\": ") == "[{\"" + "file\"" + ": \"a." + "py\", " + "\"line\": " + "3, " + "\"comment\": "
  {
    FirstFiveQuotesNormalized();
    assert NormalizeQuotes("3, ") == "3, ";
    assert NormalizeQuotes("\"comment\": ") == "\"comment\": ";
    NormalizeQuotesConcat("[{'" + "file'" + ": 'a." + "py', " + "\"line\": ", "3, ");
    NormalizeQuotesConcat("[{'" + "file'" + ": 'a." + "py', " + "\"line\": " + "3, ", "\"comment\": ");
  }

  /** Quote normalisation of the rewritten part, piece by piece. */
  lemma ExampleQuotesNormalized()
    ensures NormalizeQuotes("[{'" + "file'" + ": 'a." + "py', " + "\"line\": " + "3, " + "\"comment\": " + "'fix " + "this'}]") == ExampleRepaired
  {
    FirstSevenQuotesNormalized();
    assert NormalizeQuotes("'fix ") == "\"fix ";
    assert NormalizeQuotes("this'}]") == "this\"}]";
    NormalizeQuotesConcat("[{'" + "file'" + ": 'a." + "py', " + "\"line\": " + "3, " + "\"comment\": ", "'fix ");
    NormalizeQuotesConcat("[{'" + "file'" + ": 'a." + "py', " + "\"line\": " + "3, " + "\"comment\": " + "'fix ", "this'}]");
  }

  /** The two repair steps turn the example's bracketed part into strict
      JSON text. */
  lemma ExampleRepair()
    ensures RepairSnippet(ExampleSnippet) == ExampleRepaired
  {
    ExampleKeysQuoted();
    ExampleQuotesNormalized();
  }


  /** The slice handed to the second and third parse is the bracketed part
      of the reply. */
  lemma ExampleSnippetIsSliced()
    ensures Snippet(ExampleReply) == Some(ExampleSnippet)
  {
    SnippetOfFramed("Here you go: ", ExampleSnippet, " thanks");
  }

  /** Neither the reply nor its slice is JSON, so the extractor returns the
      parse of the repaired slice. */
  lemma ExampleIsRepaired(loads: JsonLoads)
    requires loads(ExampleReply).None? && loads(ExampleSnippet).None?
    ensures SafeExtractJson(loads, ExampleReply) == loads(ExampleRepaired).GetOr(EmptyList)
  {
    ExampleSnippetIsSliced();
    ExampleRepair();
  }
}
