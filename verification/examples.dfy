/** The file names the test suite classifies, and names that show where
    the grammars overlap or accept more than their authors wrote.

    Each name is written as the dataset identifier followed by the rest of
    the name; each example cuts the rest into the pieces a grammar builds
    it from. The `...Pieces` lemmas below only state those cuts as
    equalities of string literals: each sits in a lemma of its own because
    the solver checks long literal equalities cheaply only away from the
    definitions of the classifier. */
module Examples {
  import opened Text
  import opened Grammars
  import opened Recognizers
  import opened Classifier
  import opened Names

  /** Study phs000284 version 1, dataset pht001903 version 1. */
  const CfsId := DbgapId("000284", "1", "001903", "1")

  /** The base names of the unit tests' files. */
  const PhenotypeTestName := "phs000284.v1.pht001903.v1" + ".p1.c1.CFS_CARe_ECG.NPU.txt"
  const DataDictTestName := "phs000284.v1.pht001903.v1" + ".CFS_CARe_ECG.data_dict_2011_02_07.xml"
  const VarReportTestName := "phs000284.v1.pht001903.v1" + ".p1.CFS_CARe_ECG.var_report_2011_02_07.xml"
  const CompressedTestName := "phs000284.v1.pht001903.v1" + ".p1.CFS_CARe_ECG.var_report_2011_02_07.xml.gz"
  /** Names just outside a grammar, and one that two grammars describe. */
  const BareDataDictName := "phs000284.v1.pht001903.v1" + ".CFS.data_dict.xml"
  const DottedVarReportName := "phs000284.v1.pht001903.v1" + ".CFS.var_report_x.y.xml"
  const SubjectName := "phs000284.v1.pht001903.v1" + ".p1.c1.Subject.MULTI.txt"
  const WildcardName := "phs000284.v1.pht001903.v1" + ".p1.Subject.MULTIxtxt"

  lemma CfsIdText()
    ensures IdText(CfsId) == "phs000284.v1.pht001903.v1"
  {
  }

  lemma CfsIdValid()
    ensures ValidId(CfsId)
  {
    var s, t := "000284", "001903";
    assert s[0] == '0' && s[1] == '0' && s[2] == '0' && s[3] == '2' && s[4] == '8' && s[5] == '4';
    assert t[0] == '0' && t[1] == '0' && t[2] == '1' && t[3] == '9' && t[4] == '0' && t[5] == '3';
    OneIsDigitRun();
  }

  lemma OneIsDigitRun()
    ensures DigitRun("1")
  {
    assert "1"[0] == '1';
  }

  lemma DateIsWordRun()
    ensures WordRun("_2011_02_07")
  {
    var x := "_2011_02_07";
    assert forall i :: 0 <= i < |x| ==> x[i] == '_' || '0' <= x[i] <= '9';
  }

  /** Reassembling a name from the identifier and two runs of literal
      pieces, one join lemma per grammar. */
  lemma PhenotypeText(name: string, a: string, b: string, participants: string, consent: string, base: string, variant: string)
    requires name == IdText(CfsId) + (a + b)
    requires a == ".p" + participants + ".c" + consent + "." && b == base + "." + variant + ".txt"
    ensures name == PhenotypeName(CfsId, participants, consent, base, variant)
  {
  }

  lemma DataDictText(name: string, a: string, b: string, base: string, extra: string)
    requires name == IdText(CfsId) + (a + b)
    requires a == "." + base && b == ".data_dict" + extra + ".xml"
    ensures name == DataDictName(CfsId, base, extra)
  {
  }

  lemma VarReportText(name: string, a: string, b: string, base: string, extra: string)
    requires name == IdText(CfsId) + (a + b)
    requires a == "." + base && b == ".var_report" + extra + ".xml"
    ensures name == VarReportName(CfsId, base, extra)
  {
  }

  lemma SpecialText(name: string, a: string, b: string, participants: string, base: string, c: char)
    requires name == IdText(CfsId) + (a + b)
    requires a == ".p" + participants + "." && b == base + ".MULTI" + [c] + "txt"
    ensures name == SpecialName(CfsId, participants, base, c)
  {
  }

  /** The phenotype test name, cut at the joints of its grammar. */
  lemma PhenotypeTestPieces1()
    ensures ".p1.c1.CFS_CARe_ECG.NPU.txt" == ".p1.c1." + "CFS_CARe_ECG.NPU.txt"
  {
  }

  lemma PhenotypeTestPieces2()
    ensures ".p1.c1." == ".p" + "1" + ".c" + "1" + "."
  {
  }

  lemma PhenotypeTestPieces3()
    ensures "CFS_CARe_ECG.NPU.txt" == "CFS_CARe_ECG" + "." + "NPU" + ".txt"
  {
  }

  /** The consent-group text file of the test suite,
      `phs000284.v1.pht001903.v1.p1.c1.CFS_CARe_ECG.NPU.txt`, is a
      phenotype file of dataset `phs000284.v1.pht001903.v1`. */
  lemma PhenotypeExample()
    ensures Classify(PhenotypeTestName) == Some(Phenotype)
    ensures DatasetId(PhenotypeTestName) == Some("phs000284.v1.pht001903.v1")
  {
    var name := PhenotypeTestName;
    CfsIdText();
    PhenotypeTestPieces1();
    PhenotypeTestPieces2();
    PhenotypeTestPieces3();
    PhenotypeText(name, ".p1.c1.", "CFS_CARe_ECG.NPU.txt", "1", "1", "CFS_CARe_ECG", "NPU");
    CfsIdValid();
    OneIsDigitRun();
    PhenotypeClassified(CfsId, "1", "1", "CFS_CARe_ECG", "NPU");
  }

  /** The data_dict test name, cut at the joints of its grammar. */
  lemma DataDictTestPieces1()
    ensures ".CFS_CARe_ECG.data_dict_2011_02_07.xml" == ".CFS_CARe_ECG" + ".data_dict_2011_02_07.xml"
  {
  }

  lemma DataDictTestPieces2()
    ensures ".CFS_CARe_ECG" == "." + "CFS_CARe_ECG"
  {
  }

  lemma DataDictTestPieces3()
    ensures ".data_dict_2011_02_07.xml" == ".data_dict" + "_2011_02_07" + ".xml"
  {
  }

  /** The dated data dictionary of the test suite,
      `phs000284.v1.pht001903.v1.CFS_CARe_ECG.data_dict_2011_02_07.xml`,
      is a data_dict file of the same dataset. */
  lemma DataDictExample()
    ensures Classify(DataDictTestName) == Some(DataDict)
    ensures DatasetId(DataDictTestName) == Some("phs000284.v1.pht001903.v1")
  {
    var name := DataDictTestName;
    CfsIdText();
    DataDictTestPieces1();
    DataDictTestPieces2();
    DataDictTestPieces3();
    DataDictText(name, ".CFS_CARe_ECG", ".data_dict_2011_02_07.xml", "CFS_CARe_ECG", "_2011_02_07");
    CfsIdValid();
    DateIsWordRun();
    DataDictClassified(CfsId, "CFS_CARe_ECG", "_2011_02_07");
  }

  /** The var_report test name, cut at the joints of its grammar. */
  lemma VarReportTestPieces1()
    ensures ".p1.CFS_CARe_ECG.var_report_2011_02_07.xml" == ".p1.CFS_CARe_ECG" + ".var_report_2011_02_07.xml"
  {
  }

  lemma VarReportTestPieces2()
    ensures ".p1.CFS_CARe_ECG" == "." + "p1.CFS_CARe_ECG"
  {
  }

  lemma VarReportTestPieces3()
    ensures ".var_report_2011_02_07.xml" == ".var_report" + "_2011_02_07" + ".xml"
  {
  }

  /** The dated variable report of the test suite,
      `phs000284.v1.pht001903.v1.p1.CFS_CARe_ECG.var_report_2011_02_07.xml`,
      is a var_report file of the same dataset; its base, `p1.CFS_CARe_ECG`,
      holds a dot. */
  lemma VarReportExample()
    ensures Classify(VarReportTestName) == Some(VarReport)
    ensures DatasetId(VarReportTestName) == Some("phs000284.v1.pht001903.v1")
  {
    var name := VarReportTestName;
    CfsIdText();
    VarReportTestPieces1();
    VarReportTestPieces2();
    VarReportTestPieces3();
    VarReportText(name, ".p1.CFS_CARe_ECG", ".var_report_2011_02_07.xml", "p1.CFS_CARe_ECG", "_2011_02_07");
    CfsIdValid();
    DateIsWordRun();
    VarReportClassified(CfsId, "p1.CFS_CARe_ECG", "_2011_02_07");
  }

  /** The compressed variable report of the test suite (the report above
      with `.gz` appended) is not classified and has no dataset
      identifier. */
  lemma CompressedExample()
    ensures Classify(CompressedTestName) == None
    ensures DatasetId(CompressedTestName) == None
  {
    var name := CompressedTestName;
    var t := ".p1.CFS_CARe_ECG.var_report_2011_02_07.xml";
    assert t + ".gz" == ".p1.CFS_CARe_ECG.var_report_2011_02_07.xml.gz";
    assert name == ("phs000284.v1.pht001903.v1" + t) + ".gz";
    Compressed("phs000284.v1.pht001903.v1" + t);
  }

  /** `phs000284.v1.pht001903.v1.CFS.data_dict.xml` is not classified:
      `data_dict` needs at least one word character between `.data_dict`
      and `.xml`. */
  lemma BareDataDictExample()
    ensures Classify(BareDataDictName) == None
  {
    var name := BareDataDictName;
    var w := "data_dict";
    assert ".CFS.data_dict.xml" == ".CFS" + "." + w + ".xml";
    assert name == ("phs000284.v1.pht001903.v1" + ".CFS") + "." + w + ".xml";
    assert '.' !in w by {
      assert forall i :: 0 <= i < |w| ==> w[i] != '.';
    }
    LastSegment("phs000284.v1.pht001903.v1" + ".CFS", w);
  }

  /** `phs000284.v1.pht001903.v1.CFS.var_report_x.y.xml` is not
      classified: the word characters after `.var_report` cannot hold a
      dot. */
  lemma DottedVarReportExample()
    ensures Classify(DottedVarReportName) == None
  {
    var name := DottedVarReportName;
    var w := "y";
    assert ".CFS.var_report_x.y.xml" == ".CFS.var_report_x" + "." + w + ".xml";
    assert name == ("phs000284.v1.pht001903.v1" + ".CFS.var_report_x") + "." + w + ".xml";
    assert '.' !in w by { assert w[0] == 'y'; }
    LastSegment("phs000284.v1.pht001903.v1" + ".CFS.var_report_x", w);
  }

  /** The multi-consent subject name, cut at the joints of both grammars that build it. */
  lemma SubjectTestPieces1()
    ensures ".p1.c1.Subject.MULTI.txt" == ".p1.c1." + "Subject.MULTI.txt"
  {
  }

  lemma SubjectTestPieces2()
    ensures ".p1.c1.Subject.MULTI.txt" == ".p1." + "c1.Subject.MULTI.txt"
  {
  }

  lemma SubjectTestPieces3()
    ensures ".p1.c1." == ".p" + "1" + ".c" + "1" + "."
  {
  }

  lemma SubjectTestPieces4()
    ensures ".p1." == ".p" + "1" + "."
  {
  }

  lemma SubjectTestPieces5()
    ensures "Subject.MULTI.txt" == "Subject" + "." + "MULTI" + ".txt"
  {
  }

  lemma SubjectTestPieces6()
    ensures "c1.Subject.MULTI.txt" == "c1.Subject" + ".MULTI" + ['.'] + "txt"
  {
  }

  /** The multi-consent subject file is a phenotype name. */
  lemma SubjectIsPhenotype()
    ensures Classify(SubjectName) == Some(Phenotype)
  {
    var name := SubjectName;
    CfsIdText();
    SubjectTestPieces1();
    SubjectTestPieces3();
    SubjectTestPieces5();
    PhenotypeText(name, ".p1.c1.", "Subject.MULTI.txt", "1", "1", "Subject", "MULTI");
    CfsIdValid();
    OneIsDigitRun();
    PhenotypeClassified(CfsId, "1", "1", "Subject", "MULTI");
  }

  /** It is also a special name. */
  lemma SubjectIsSpecial()
    ensures Body(Special, SubjectName)
  {
    var name := SubjectName;
    CfsIdText();
    SubjectTestPieces2();
    SubjectTestPieces4();
    SubjectTestPieces6();
    SpecialText(name, ".p1.", "c1.Subject.MULTI.txt", "1", "c1.Subject", '.');
    CfsIdValid();
    OneIsDigitRun();
  }

  /** The multi-consent subject file
      `phs000284.v1.pht001903.v1.p1.c1.Subject.MULTI.txt` matches both
      phenotype (base `Subject`, second part `MULTI`) and special (base
      `c1.Subject`, the wildcard taking the dot). With the table in its
      written order it is a phenotype file; an order that yields `special`
      first makes it a special file, so for this name the result depends
      on the order in which the table yields its keys. */
  lemma OverlapExample()
    ensures Matches(Phenotype, SubjectName) && Matches(Special, SubjectName)
    ensures Classify(SubjectName) == Some(Phenotype)
    ensures SortFile(SubjectName, [Special, Phenotype, DataDict, VarReport]) == Some(Special)
  {
    var name := SubjectName;
    SubjectIsPhenotype();
    SubjectIsSpecial();
    OrderMatters(name);
  }

  /** The wildcard name, cut at the joints of the special grammar. */
  lemma MultiTestPieces1()
    ensures ".p1.Subject.MULTIxtxt" == ".p1." + "Subject.MULTIxtxt"
  {
  }

  lemma MultiTestPieces2()
    ensures ".p1." == ".p" + "1" + "."
  {
  }

  lemma MultiTestPieces3()
    ensures "Subject.MULTIxtxt" == "Subject" + ".MULTI" + ['x'] + "txt"
  {
  }

  lemma MultiTestPieces4()
    ensures !EndsWith("Subject.MULTIxtxt", ".txt") && !EndsWith("Subject.MULTIxtxt", "\n")
  {
    var t := "Subject.MULTIxtxt";
    assert t[|t| - 4..][0] == 'x' && t[|t| - 1..][0] == 't';
  }

  lemma SuffixOfAppend(x: string, t: string, n: nat)
    requires n <= |t|
    ensures (x + t)[|x + t| - n..] == t[|t| - n..]
  {
  }

  /** The unescaped dot before `txt` in the special grammar accepts any
      character there, so `phs000284.v1.pht001903.v1.p1.Subject.MULTIxtxt`
      is a special file; phenotype, which needs `.txt`, does not match
      it. */
  lemma WildcardExample()
    ensures Classify(WildcardName) == Some(Special)
  {
    var name := WildcardName;
    CfsIdText();
    MultiTestPieces1();
    MultiTestPieces2();
    MultiTestPieces3();
    MultiTestPieces4();
    SpecialText(name, ".p1.", "Subject.MULTIxtxt", "1", "Subject", 'x');
    var x, t := IdText(CfsId) + ".p1.", "Subject.MULTIxtxt";
    assert name == x + t;
    SuffixOfAppend(x, t, 4);
    SuffixOfAppend(x, t, 1);
    assert !EndsWith(name, ".txt") && !EndsWith(name, "\n");
    MatchesText(Phenotype, name);
    if Body(Phenotype, name) {
      BodyEnding(Phenotype, name);
    }
    CfsIdValid();
    OneIsDigitRun();
    SpecialClassified(CfsId, "1", "Subject", 'x');
  }
}
