/** Executable recognizers for the four grammars, each proved to accept
    exactly the names its grammar describes.

    Every grammar opens with the dataset identifier and a dot. Digit runs
    cannot contain a dot, so that head parses in one way only; what
    follows it is then checked by a recognizer for each grammar's tail. */
module Recognizers {
  import opened Text
  import opened Grammars

  /** A name split after its head: the identifier and the text after
      the dot that follows it. */
  datatype Head = Head(id: DbgapId, rest: string)

  /** Parses `tag`, six digits, `.v`, a digit run and a dot from the front
      of `s`: one accession and its version. Gives the six digits, the
      version and the text after the dot. */
  function ParseAccession(s: string, tag: string): (r: Option<(string, string, string)>)
    ensures r.Some? ==>
      Digits(r.value.0, 6) && DigitRun(r.value.1) && s == tag + r.value.0 + ".v" + r.value.1 + "." + r.value.2
  {
    var n := |tag|;
    if !(n + 8 <= |s| && s[..n] == tag && AllDigits(s[n..n + 6]) && s[n + 6..n + 8] == ".v") then None
    else match SplitDigits(s[n + 8..], ".")
      case None => None
      case Some((version, rest)) =>
        assert s == s[..n] + s[n..n + 6] + s[n + 6..n + 8] + s[n + 8..];
        Some((s[n..n + 6], version, rest))
  }

  /** ParseAccession recovers the accession, version and remainder it was
      built from. */
  lemma {:induction false} ParseAccessionOf(tag: string, acc: string, version: string, rest: string)
    requires Digits(acc, 6) && DigitRun(version)
    ensures ParseAccession(tag + acc + ".v" + version + "." + rest, tag) == Some((acc, version, rest))
  {
    var s := tag + acc + ".v" + version + "." + rest;
    var n := |tag|;
    assert s == tag + acc + ".v" + (version + "." + rest);
    assert s[..n] == tag && s[n..n + 6] == acc && s[n + 6..n + 8] == ".v";
    assert s[n + 8..] == version + "." + rest;
    SplitDigitsOf(version, ".", rest);
  }

  /** Parses the dataset identifier and the dot after it from the front of
      `s`: the study accession and version, then the dataset accession and
      version. */
  function ParseHead(s: string): (h: Option<Head>)
    ensures h.Some? ==> ValidId(h.value.id) && s == IdText(h.value.id) + "." + h.value.rest
  {
    match ParseAccession(s, "phs")
    case None => None
    case Some((phs, phsVersion, r)) =>
      match ParseAccession(r, "pht")
      case None => None
      case Some((pht, phtVersion, rest)) =>
        var id := DbgapId(phs, phsVersion, pht, phtVersion);
        HeadJoin(id, r, rest);
        Some(Head(id, rest))
  }

  /** The identifier's text is its study part, a dot, then its dataset part. */
  lemma HeadJoin(id: DbgapId, r: string, rest: string)
    requires r == "pht" + id.pht + ".v" + id.phtVersion + "." + rest
    ensures "phs" + id.phs + ".v" + id.phsVersion + "." + r == IdText(id) + "." + rest
  {
    assert ".pht" == "." + "pht";
  }

  /** The head of a name built from a valid identifier is that identifier:
      ParseHead inverts IdText. */
  lemma {:induction false} ParseHeadOf(id: DbgapId, rest: string)
    requires ValidId(id)
    ensures ParseHead(IdText(id) + "." + rest) == Some(Head(id, rest))
  {
    var r := "pht" + id.pht + ".v" + id.phtVersion + "." + rest;
    HeadJoin(id, r, rest);
    ParseAccessionOf("phs", id.phs, id.phsVersion, r);
    ParseAccessionOf("pht", id.pht, id.phtVersion, rest);
  }

  /** A keyword as the grammars write it: a dot, then word characters. */
  predicate DottedKeyword(keyword: string) {
    |keyword| >= 2 && keyword[0] == '.' && WordRun(keyword[1..])
  }

  /** Tail of `data_dict` and `var_report`: a non-empty base, the dotted
      keyword, one or more word characters, `.xml`. */
  function KeywordTail(r: string, keyword: string): bool {
    EndsWith(r, ".xml") && KeywordSegment(r[..|r| - 4], keyword)
  }

  /** The part before `.xml`. The word characters after the keyword hold
      no dot, so the keyword must start at the last dot. */
  function KeywordSegment(m: string, keyword: string): bool {
    match LastDot(m)
    case None => false
    case Some(j) =>
      var w := m[j..];
      1 <= j && AnyRun(m[..j]) && |keyword| < |w| && w[..|keyword|] == keyword && WordRun(w[|keyword|..])
  }

  /** An accepted keyword tail splits into the grammar's pieces. */
  lemma KeywordTailSplit(r: string, keyword: string) returns (base: string, extra: string)
    requires KeywordTail(r, keyword)
    ensures AnyRun(base) && WordRun(extra) && r == base + keyword + extra + ".xml"
  {
    var m := r[..|r| - 4];
    var j := LastDot(m).value;
    var w := m[j..];
    base, extra := m[..j], w[|keyword|..];
    assert m == base + w;
    assert w == keyword + extra by {
      assert w == w[..|keyword|] + w[|keyword|..];
    }
    assert r == m + ".xml";
  }

  lemma KeywordSegmentOf(base: string, keyword: string, extra: string)
    requires AnyRun(base) && DottedKeyword(keyword) && WordRun(extra)
    ensures KeywordSegment(base + (keyword + extra), keyword)
  {
    var v := keyword[1..] + extra;
    var w := keyword + extra;
    var m := base + w;
    assert w == "." + v && m == base + "." + v;
    assert '.' !in v by {
      assert forall i :: 0 <= i < |v| ==> IsWordChar(v[i]);
    }
    LastDotOf(base, v);
    assert m[..|base|] == base && m[|base|..] == w;
    assert w[..|keyword|] == keyword && w[|keyword|..] == extra;
  }

  /** A name cut into the grammar's pieces passes the keyword tail check. */
  lemma KeywordTailOf(base: string, keyword: string, extra: string)
    requires AnyRun(base) && DottedKeyword(keyword) && WordRun(extra)
    ensures KeywordTail(base + keyword + extra + ".xml", keyword)
  {
    var m := base + (keyword + extra);
    assert base + keyword + extra + ".xml" == m + ".xml";
    KeywordSegmentOf(base, keyword, extra);
    assert (m + ".xml")[..|m|] == m;
  }

  /** Tail of `phenotype`: `p`, digits, `.c`, digits, a dot, two non-empty
      parts joined by a dot, `.txt`. */
  function PhenotypeTail(r: string): bool {
    StartsWith(r, "p") &&
    match SplitDigits(r[1..], ".c")
    case None => false
    case Some((_, r2)) =>
      match SplitDigits(r2, ".")
      case None => false
      case Some((_, q)) => EndsWith(q, ".txt") && TwoParts(q[..|q| - 4])
  }

  /** Two non-empty parts without line feeds joined by a dot: any dot
      strictly inside the text can be the joint. */
  function TwoParts(m: string): bool {
    3 <= |m| && '\n' !in m && '.' in m[1..|m| - 1]
  }

  lemma TwoPartsSplit(m: string) returns (base: string, variant: string)
    requires TwoParts(m)
    ensures AnyRun(base) && AnyRun(variant) && m == base + "." + variant
  {
    var t := m[1..|m| - 1];
    var i :| 0 <= i < |t| && t[i] == '.';
    base, variant := m[..i + 1], m[i + 2..];
    assert m == base + [m[i + 1]] + variant;
    assert '\n' !in base && '\n' !in variant by {
      assert forall c :: c in base || c in variant ==> c in m;
    }
  }

  lemma TwoPartsOf(base: string, variant: string)
    requires AnyRun(base) && AnyRun(variant)
    ensures TwoParts(base + "." + variant)
  {
    var m := base + "." + variant;
    assert m[1..|m| - 1][|base| - 1] == '.';
    assert '\n' !in m by {
      assert forall c :: c in m ==> c in base || c == '.' || c in variant;
    }
  }

  /** An accepted phenotype tail splits into the grammar's pieces. */
  lemma PhenotypeTailSplit(r: string) returns (participants: string, consent: string, base: string, variant: string)
    requires PhenotypeTail(r)
    ensures DigitRun(participants) && DigitRun(consent) && AnyRun(base) && AnyRun(variant)
    ensures r == "p" + participants + ".c" + consent + "." + base + "." + variant + ".txt"
  {
    var q;
    participants, consent, q := PhenotypeNumbersSplit(r);
    var m := q[..|q| - 4];
    base, variant := TwoPartsSplit(m);
    assert q == m + ".txt";
    PhenotypeJoin(r, participants, consent, q, base, variant);
  }

  /** The two numbers at the front of an accepted phenotype tail, and the
      text after them. */
  lemma PhenotypeNumbersSplit(r: string) returns (participants: string, consent: string, q: string)
    requires PhenotypeTail(r)
    ensures DigitRun(participants) && DigitRun(consent) && EndsWith(q, ".txt") && TwoParts(q[..|q| - 4])
    ensures r == "p" + participants + ".c" + consent + "." + q
  {
    var split1 := SplitDigits(r[1..], ".c").value;
    var r2 := split1.1;
    participants := split1.0;
    var split2 := SplitDigits(r2, ".").value;
    q := split2.1;
    consent := split2.0;
    NumbersJoin(r, participants, r2, consent, q);
  }

  lemma NumbersJoin(r: string, participants: string, r2: string, consent: string, q: string)
    requires StartsWith(r, "p") && r[1..] == participants + ".c" + r2 && r2 == consent + "." + q
    ensures r == "p" + participants + ".c" + consent + "." + q
  {
    assert r == r[..1] + r[1..];
  }

  lemma PhenotypeJoin(r: string, participants: string, consent: string, q: string, base: string, variant: string)
    requires r == "p" + participants + ".c" + consent + "." + q
    requires q == base + "." + variant + ".txt"
    ensures r == "p" + participants + ".c" + consent + "." + base + "." + variant + ".txt"
  {
  }

  /** A name cut into the grammar's pieces passes the phenotype tail check. */
  lemma PhenotypeTailOf(participants: string, consent: string, base: string, variant: string)
    requires DigitRun(participants) && DigitRun(consent) && AnyRun(base) && AnyRun(variant)
    ensures PhenotypeTail("p" + participants + ".c" + consent + "." + base + "." + variant + ".txt")
  {
    var m := base + "." + variant;
    var q := m + ".txt";
    var r2 := consent + "." + q;
    var r := "p" + participants + ".c" + consent + "." + base + "." + variant + ".txt";
    assert r == "p" + (participants + ".c" + r2);
    assert r[1..] == participants + ".c" + r2;
    SplitDigitsOf(participants, ".c", r2);
    SplitDigitsOf(consent, ".", q);
    TwoPartsOf(base, variant);
    assert q[..|q| - 4] == m;
  }

  /** Tail of `special`: `p`, digits, a dot, then the `.MULTI` ending. */
  function SpecialTail(r: string): bool {
    StartsWith(r, "p") &&
    match SplitDigits(r[1..], ".")
    case None => false
    case Some((_, q)) => MultiEnding(q)
  }

  /** A non-empty base, `.MULTI`, one character other than a line feed,
      `txt`: the last ten characters are fixed but for one. */
  function MultiEnding(q: string): bool {
    11 <= |q| && AnyRun(q[..|q| - 10]) && q[|q| - 10..|q| - 4] == ".MULTI" &&
    q[|q| - 4] != '\n' && q[|q| - 3..] == "txt"
  }

  lemma MultiEndingSplit(q: string) returns (base: string, c: char)
    requires MultiEnding(q)
    ensures AnyRun(base) && c != '\n' && q == base + ".MULTI" + [c] + "txt"
  {
    base, c := q[..|q| - 10], q[|q| - 4];
    assert q == base + q[|q| - 10..|q| - 4] + [c] + q[|q| - 3..];
  }

  lemma MultiEndingOf(base: string, c: char)
    requires AnyRun(base) && c != '\n'
    ensures MultiEnding(base + ".MULTI" + [c] + "txt")
  {
    var q := base + ".MULTI" + [c] + "txt";
    assert q[..|q| - 10] == base;
    assert q[|q| - 10..|q| - 4] == ".MULTI";
  }

  /** An accepted special tail splits into the grammar's pieces. */
  lemma SpecialTailSplit(r: string) returns (participants: string, base: string, c: char)
    requires SpecialTail(r)
    ensures DigitRun(participants) && AnyRun(base) && c != '\n'
    ensures r == "p" + participants + "." + base + ".MULTI" + [c] + "txt"
  {
    var split := SplitDigits(r[1..], ".").value;
    var q := split.1;
    participants := split.0;
    base, c := MultiEndingSplit(q);
    SpecialJoin(r, participants, q, base, c);
  }

  lemma SpecialJoin(r: string, participants: string, q: string, base: string, c: char)
    requires StartsWith(r, "p") && r[1..] == participants + "." + q
    requires q == base + ".MULTI" + [c] + "txt"
    ensures r == "p" + participants + "." + base + ".MULTI" + [c] + "txt"
  {
    assert r == r[..1] + r[1..];
  }

  /** A name cut into the grammar's pieces passes the special tail check. */
  lemma SpecialTailOf(participants: string, base: string, c: char)
    requires DigitRun(participants) && AnyRun(base) && c != '\n'
    ensures SpecialTail("p" + participants + "." + base + ".MULTI" + [c] + "txt")
  {
    var q := base + ".MULTI" + [c] + "txt";
    var r := "p" + participants + "." + base + ".MULTI" + [c] + "txt";
    assert r == "p" + (participants + "." + q);
    assert r[1..] == participants + "." + q;
    SplitDigitsOf(participants, ".", q);
    MultiEndingOf(base, c);
  }

  /** The check, for key `k`, of the text after the head. */
  function RecognizeTail(k: FileType, r: string): bool {
    match k
    case DataDict => KeywordTail(r, ".data_dict")
    case Phenotype => PhenotypeTail(r)
    case VarReport => KeywordTail(r, ".var_report")
    case Special => SpecialTail(r)
  }

  /** The recognizer for the grammar of key `k`, without the final `$`. */
  function RecognizeBody(k: FileType, s: string): bool {
    match ParseHead(s)
    case None => false
    case Some(h) => RecognizeTail(k, h.rest)
  }

  /** A valid identifier, a dot and an accepted tail make an accepted name. */
  lemma {:induction false} HeadOf(k: FileType, s: string, id: DbgapId, rest: string)
    requires ValidId(id) && s == IdText(id) + "." + rest && RecognizeTail(k, rest)
    ensures RecognizeBody(k, s)
  {
    ParseHeadOf(id, rest);
  }

  /** Each grammar's name is the identifier, a dot, and its tail. */
  lemma DataDictJoin(id: DbgapId, base: string, extra: string)
    ensures DataDictName(id, base, extra) == IdText(id) + "." + (base + ".data_dict" + extra + ".xml")
  {
  }

  lemma VarReportJoin(id: DbgapId, base: string, extra: string)
    ensures VarReportName(id, base, extra) == IdText(id) + "." + (base + ".var_report" + extra + ".xml")
  {
  }

  lemma PhenotypeJoinHead(id: DbgapId, participants: string, consent: string, base: string, variant: string)
    ensures PhenotypeName(id, participants, consent, base, variant)
      == IdText(id) + "." + ("p" + participants + ".c" + consent + "." + base + "." + variant + ".txt")
  {
    assert ".p" == "." + "p";
  }

  lemma SpecialJoinHead(id: DbgapId, participants: string, base: string, c: char)
    ensures SpecialName(id, participants, base, c)
      == IdText(id) + "." + ("p" + participants + "." + base + ".MULTI" + [c] + "txt")
  {
    assert ".p" == "." + "p";
  }

  /** The recognizer accepts every name the `data_dict` grammar builds. */
  lemma {:induction false} DataDictOf(id: DbgapId, base: string, extra: string)
    requires ValidId(id) && AnyRun(base) && WordRun(extra)
    ensures RecognizeBody(DataDict, DataDictName(id, base, extra))
  {
    DataDictJoin(id, base, extra);
    KeywordTailOf(base, ".data_dict", extra);
    HeadOf(DataDict, DataDictName(id, base, extra), id, base + ".data_dict" + extra + ".xml");
  }

  /** The `data_dict` recognizer accepts exactly the names of its grammar. */
  lemma {:induction false} DataDictCorrect(s: string)
    ensures RecognizeBody(DataDict, s) <==> DataDictBody(s)
  {
    if RecognizeBody(DataDict, s) {
      var h := ParseHead(s).value;
      var base, extra := KeywordTailSplit(h.rest, ".data_dict");
      DataDictJoin(h.id, base, extra);
      assert s == DataDictName(h.id, base, extra);
    }
    if DataDictBody(s) {
      var id, base, extra :| ValidId(id) && AnyRun(base) && WordRun(extra) && s == DataDictName(id, base, extra);
      DataDictOf(id, base, extra);
    }
  }

  /** The recognizer accepts every name the `var_report` grammar builds. */
  lemma {:induction false} VarReportOf(id: DbgapId, base: string, extra: string)
    requires ValidId(id) && AnyRun(base) && WordRun(extra)
    ensures RecognizeBody(VarReport, VarReportName(id, base, extra))
  {
    VarReportJoin(id, base, extra);
    KeywordTailOf(base, ".var_report", extra);
    HeadOf(VarReport, VarReportName(id, base, extra), id, base + ".var_report" + extra + ".xml");
  }

  /** The `var_report` recognizer accepts exactly the names of its grammar. */
  lemma {:induction false} VarReportCorrect(s: string)
    ensures RecognizeBody(VarReport, s) <==> VarReportBody(s)
  {
    if RecognizeBody(VarReport, s) {
      var h := ParseHead(s).value;
      var base, extra := KeywordTailSplit(h.rest, ".var_report");
      VarReportJoin(h.id, base, extra);
      assert s == VarReportName(h.id, base, extra);
    }
    if VarReportBody(s) {
      var id, base, extra :| ValidId(id) && AnyRun(base) && WordRun(extra) && s == VarReportName(id, base, extra);
      VarReportOf(id, base, extra);
    }
  }

  /** The recognizer accepts every name the `phenotype` grammar builds. */
  lemma {:induction false} PhenotypeOf(id: DbgapId, participants: string, consent: string, base: string, variant: string)
    requires ValidId(id) && DigitRun(participants) && DigitRun(consent) && AnyRun(base) && AnyRun(variant)
    ensures RecognizeBody(Phenotype, PhenotypeName(id, participants, consent, base, variant))
  {
    PhenotypeJoinHead(id, participants, consent, base, variant);
    PhenotypeTailOf(participants, consent, base, variant);
    HeadOf(Phenotype, PhenotypeName(id, participants, consent, base, variant), id,
      "p" + participants + ".c" + consent + "." + base + "." + variant + ".txt");
  }

  /** The `phenotype` recognizer accepts exactly the names of its grammar. */
  lemma {:induction false} PhenotypeCorrect(s: string)
    ensures RecognizeBody(Phenotype, s) <==> PhenotypeBody(s)
  {
    if RecognizeBody(Phenotype, s) {
      var h := ParseHead(s).value;
      var participants, consent, base, variant := PhenotypeTailSplit(h.rest);
      PhenotypeJoinHead(h.id, participants, consent, base, variant);
      assert s == PhenotypeName(h.id, participants, consent, base, variant);
    }
    if PhenotypeBody(s) {
      var id, participants, consent, base, variant :|
        ValidId(id) && DigitRun(participants) && DigitRun(consent) && AnyRun(base) && AnyRun(variant) &&
        s == PhenotypeName(id, participants, consent, base, variant);
      PhenotypeOf(id, participants, consent, base, variant);
    }
  }

  /** The recognizer accepts every name the `special` grammar builds. */
  lemma {:induction false} SpecialOf(id: DbgapId, participants: string, base: string, c: char)
    requires ValidId(id) && DigitRun(participants) && AnyRun(base) && c != '\n'
    ensures RecognizeBody(Special, SpecialName(id, participants, base, c))
  {
    SpecialJoinHead(id, participants, base, c);
    SpecialTailOf(participants, base, c);
    HeadOf(Special, SpecialName(id, participants, base, c), id,
      "p" + participants + "." + base + ".MULTI" + [c] + "txt");
  }

  /** The `special` recognizer accepts exactly the names of its grammar. */
  lemma {:induction false} SpecialCorrect(s: string)
    ensures RecognizeBody(Special, s) <==> SpecialBody(s)
  {
    if RecognizeBody(Special, s) {
      var h := ParseHead(s).value;
      var participants, base, c := SpecialTailSplit(h.rest);
      SpecialJoinHead(h.id, participants, base, c);
      assert s == SpecialName(h.id, participants, base, c);
    }
    if SpecialBody(s) {
      var id, participants, base, c :|
        ValidId(id) && DigitRun(participants) && AnyRun(base) && c != '\n' &&
        s == SpecialName(id, participants, base, c);
      SpecialOf(id, participants, base, c);
    }
  }
}
