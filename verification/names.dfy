/** What the classification says about a name: the dataset identifier it
    starts with, which grammar a name built by a grammar lands in, and
    which names stay unclassified because the grammars are anchored at
    both ends. */
module Names {
  import opened Text
  import opened Grammars
  import opened Recognizers
  import opened Classifier

  /** A name some grammar matches does not end in a line feed. */
  lemma MatchedNoNewline(k: FileType, name: string)
    requires Body(k, name)
    ensures MatchedText(name) == name
  {
    if EndsWith(name, "\n") {
      NoBodyEndsInNewline(k, name);
    }
  }

  /** The head of a classified name, after the line feed `$` may skip. */
  lemma ClassifiedHead(name: string)
    requires Classify(name).Some?
    ensures ParseHead(MatchedText(name)).Some?
    ensures StartsWith(name, IdText(ParseHead(MatchedText(name)).value.id) + ".")
  {
    var k := Classify(name).value;
    MatchesText(k, name);
    BodyCorrect(k, MatchedText(name));
    var h := ParseHead(MatchedText(name)).value;
    MatchedPrefix(name, IdText(h.id) + ".", h.rest);
  }

  lemma MatchedPrefix(name: string, p: string, rest: string)
    requires MatchedText(name) == p + rest
    ensures StartsWith(name, p)
  {
    var m := MatchedText(name);
    assert name[..|m|] == m;
    assert name[..|p|] == m[..|p|];
  }

  /** The dataset identifier of a classified name, such as
      `phs000284.v1.pht001903.v1`: the shared prefix of every grammar,
      without the dot that ends it. Unclassified names have none. */
  function DatasetId(name: string): (r: Option<string>)
    ensures r.Some? <==> Classify(name).Some?
    ensures r.Some? ==> exists id :: ValidId(id) && r.value == IdText(id)
    ensures r.Some? ==> StartsWith(name, r.value + ".")
  {
    if Classify(name).None? then None
    else
      ClassifiedHead(name);
      Some(IdText(ParseHead(MatchedText(name)).value.id))
  }

  /** A name that a grammar builds from identifier `id` has `id` as its
      dataset identifier. */
  lemma {:induction false} DatasetIdOf(k: FileType, name: string, id: DbgapId, rest: string)
    requires ValidId(id) && name == IdText(id) + "." + rest && Body(k, name)
    ensures DatasetId(name) == Some(IdText(id))
  {
    MatchedNoNewline(k, name);
    assert Matches(k, name);
    ParseHeadOf(id, rest);
    assert ParseHead(MatchedText(name)) == Some(Head(id, rest));
  }

  /** Every `data_dict` name is classified as `data_dict`, under its own
      identifier. */
  lemma {:induction false} DataDictClassified(id: DbgapId, base: string, extra: string)
    requires ValidId(id) && AnyRun(base) && WordRun(extra)
    ensures Classify(DataDictName(id, base, extra)) == Some(DataDict)
    ensures DatasetId(DataDictName(id, base, extra)) == Some(IdText(id))
  {
    var name := DataDictName(id, base, extra);
    assert Body(DataDict, name);
    ClassifyOf(DataDict, name);
    DataDictJoin(id, base, extra);
    DatasetIdOf(DataDict, name, id, base + ".data_dict" + extra + ".xml");
  }

  /** Every `phenotype` name is classified as `phenotype`, under its own
      identifier. */
  lemma {:induction false} PhenotypeClassified(id: DbgapId, participants: string, consent: string, base: string, variant: string)
    requires ValidId(id) && DigitRun(participants) && DigitRun(consent) && AnyRun(base) && AnyRun(variant)
    ensures Classify(PhenotypeName(id, participants, consent, base, variant)) == Some(Phenotype)
    ensures DatasetId(PhenotypeName(id, participants, consent, base, variant)) == Some(IdText(id))
  {
    var name := PhenotypeName(id, participants, consent, base, variant);
    assert Body(Phenotype, name);
    ClassifyOf(Phenotype, name);
    PhenotypeJoinHead(id, participants, consent, base, variant);
    DatasetIdOf(Phenotype, name, id, "p" + participants + ".c" + consent + "." + base + "." + variant + ".txt");
  }

  /** Every `var_report` name is classified as `var_report`, under its own
      identifier. */
  lemma {:induction false} VarReportClassified(id: DbgapId, base: string, extra: string)
    requires ValidId(id) && AnyRun(base) && WordRun(extra)
    ensures Classify(VarReportName(id, base, extra)) == Some(VarReport)
    ensures DatasetId(VarReportName(id, base, extra)) == Some(IdText(id))
  {
    var name := VarReportName(id, base, extra);
    assert Body(VarReport, name);
    ClassifyOf(VarReport, name);
    VarReportJoin(id, base, extra);
    DatasetIdOf(VarReport, name, id, base + ".var_report" + extra + ".xml");
  }

  /** A `special` name is classified as `special`, under its own
      identifier, unless the phenotype grammar also matches it; then the
      phenotype key, which the table lists first, wins. */
  lemma {:induction false} SpecialClassified(id: DbgapId, participants: string, base: string, c: char)
    requires ValidId(id) && DigitRun(participants) && AnyRun(base) && c != '\n'
    ensures var name := SpecialName(id, participants, base, c);
      Classify(name) == if Matches(Phenotype, name) then Some(Phenotype) else Some(Special)
    ensures DatasetId(SpecialName(id, participants, base, c)) == Some(IdText(id))
  {
    var name := SpecialName(id, participants, base, c);
    assert Body(Special, name);
    if Matches(Phenotype, name) {
      ClassifyOf(Phenotype, name);
    } else {
      ClassifyOf(Special, name);
    }
    SpecialJoinHead(id, participants, base, c);
    DatasetIdOf(Special, name, id, "p" + participants + "." + base + ".MULTI" + [c] + "txt");
  }

  /** Anchoring at the end: a name whose text, less a final line feed,
      ends neither in `xml` nor in `txt` is not classified. */
  lemma {:induction false} UnanchoredEnding(name: string)
    requires !EndsWith(MatchedText(name), "xml") && !EndsWith(MatchedText(name), "txt")
    ensures Classify(name) == None
  {
    forall k ensures !Matches(k, name) {
      MatchesText(k, name);
      var m := MatchedText(name);
      if EndsWith(m, ".xml") {
        EndsWithShorter(m, ".xml");
      }
      if Body(k, m) {
        BodyEnding(k, m);
      }
    }
  }

  /** A compressed file, `.gz` after any name, is not classified. */
  lemma {:induction false} Compressed(name: string)
    ensures Classify(name + ".gz") == None
  {
    var s := name + ".gz";
    assert s[|s| - 1] == 'z';
    assert MatchedText(s) == s;
    assert s[|s| - 3..] == "." + "gz";
    UnanchoredEnding(s);
  }

  /** `$` also matches before one final line feed, so adding one to a name
      that has none does not change its class. */
  lemma {:induction false} FinalNewline(name: string)
    requires !EndsWith(name, "\n")
    ensures Classify(name + "\n") == Classify(name)
  {
    var s := name + "\n";
    assert MatchedText(s) == name by {
      assert s[..|s| - 1] == name;
    }
    forall k ensures Matches(k, s) <==> Matches(k, name) {
      MatchesText(k, s);
      MatchesText(k, name);
    }
    SortFileRespects(s, name, TableOrder);
  }

  /** The word characters after `.data_dict` contain no dot, so in a
      `data_dict` name the last segment before `.xml` is `data_dict`
      followed by at least one more character. */
  lemma {:induction false} DataDictLast(p: string, w: string)
    requires '.' !in w && Body(DataDict, p + "." + w + ".xml")
    ensures |w| > 9 && StartsWith(w, "data_dict")
  {
    var id, base, extra :| ValidId(id) && AnyRun(base) && WordRun(extra) &&
      p + "." + w + ".xml" == DataDictName(id, base, extra);
    var t := IdText(id) + "." + base;
    var v := "data_dict" + extra;
    WordRunHasNoDot(extra);
    assert '.' !in v by {
      assert forall i :: 0 <= i < 9 ==> v[i] == "data_dict"[i];
      assert forall i :: 9 <= i < |v| ==> v[i] == extra[i - 9];
    }
    assert (p + "." + w) + ".xml" == (t + "." + v) + ".xml";
    DropSuffix(p + "." + w, t + "." + v, ".xml");
    SameLastSegment(p, w, t, v);
    assert w[..9] == "data_dict";
  }

  /** The word characters after `.var_report` contain no dot, so in a
      `var_report` name the last segment before `.xml` is `var_report`
      followed by at least one more character. */
  lemma {:induction false} VarReportLast(p: string, w: string)
    requires '.' !in w && Body(VarReport, p + "." + w + ".xml")
    ensures |w| > 10 && StartsWith(w, "var_report")
  {
    var id, base, extra :| ValidId(id) && AnyRun(base) && WordRun(extra) &&
      p + "." + w + ".xml" == VarReportName(id, base, extra);
    var t := IdText(id) + "." + base;
    var v := "var_report" + extra;
    WordRunHasNoDot(extra);
    assert '.' !in v by {
      assert forall i :: 0 <= i < 10 ==> v[i] == "var_report"[i];
      assert forall i :: 10 <= i < |v| ==> v[i] == extra[i - 10];
    }
    assert (p + "." + w) + ".xml" == (t + "." + v) + ".xml";
    DropSuffix(p + "." + w, t + "." + v, ".xml");
    SameLastSegment(p, w, t, v);
    assert w[..10] == "var_report";
  }

  /** An `.xml` name is classified only when its last segment before
      `.xml` is `data_dict` or `var_report` followed by more word
      characters: `...CFS.data_dict.xml` and `...var_report_x.y.xml` are
      not classified. */
  lemma {:induction false} LastSegment(p: string, w: string)
    requires '.' !in w
    requires !(|w| > 9 && StartsWith(w, "data_dict")) && !(|w| > 10 && StartsWith(w, "var_report"))
    ensures Classify(p + "." + w + ".xml") == None
  {
    var s := p + "." + w + ".xml";
    assert s[|s| - 1] == 'l';
    assert MatchedText(s) == s;
    assert EndsWith(s, ".xml");
    XmlIsNotTxt(s);
    forall k ensures !Matches(k, s) {
      MatchesText(k, s);
      if Body(k, s) {
        match k
        case DataDict => DataDictLast(p, w);
        case VarReport => VarReportLast(p, w);
        case Phenotype => BodyEnding(k, s);
        case Special => BodyEnding(k, s);
      }
    }
  }
}
