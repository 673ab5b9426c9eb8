/** `sort_file`: the key of the first grammar in the table that matches a
    base name, or nothing when none does. */
module Classifier {
  import opened Text
  import opened Grammars
  import opened Recognizers

  lemma BodyCorrect(k: FileType, s: string)
    ensures RecognizeBody(k, s) <==> Body(k, s)
  {
    match k
    case DataDict => DataDictCorrect(s);
    case Phenotype => PhenotypeCorrect(s);
    case VarReport => VarReportCorrect(s);
    case Special => SpecialCorrect(s);
  }

  /** Every grammar ends in `xml` (data_dict, var_report) or `txt`
      (phenotype, special). */
  lemma {:induction false} RecognizedEnding(k: FileType, s: string)
    requires RecognizeBody(k, s)
    ensures k == DataDict || k == VarReport ==> EndsWith(s, ".xml")
    ensures k == Phenotype || k == Special ==> EndsWith(s, "txt")
    ensures k == Phenotype ==> EndsWith(s, ".txt")
  {
    var rest := ParseHead(s).value.rest;
    TailEnding(k, rest);
    if k == DataDict || k == VarReport {
      HeadEnding(s, ".xml");
    } else {
      HeadEnding(s, "txt");
      if k == Phenotype {
        HeadEnding(s, ".txt");
      }
    }
  }

  /** The text after the head ends as the whole name does. */
  lemma TailEnding(k: FileType, r: string)
    requires RecognizeTail(k, r)
    ensures k == DataDict || k == VarReport ==> EndsWith(r, ".xml")
    ensures k == Phenotype || k == Special ==> EndsWith(r, "txt")
    ensures k == Phenotype ==> EndsWith(r, ".txt")
  {
    match k
    case DataDict =>
    case VarReport =>
    case Phenotype =>
      PhenotypeTailEnding(r);
      EndsWithShorter(r, ".txt");
    case Special =>
      SpecialTailEnding(r);
  }

  lemma SpecialTailEnding(r: string)
    requires SpecialTail(r)
    ensures EndsWith(r, "txt")
  {
    var q := SplitDigits(r[1..], ".").value.1;
    EndsWithAppend(SplitDigits(r[1..], ".").value.0 + ".", q, "txt");
    assert r == r[..1] + r[1..];
    EndsWithAppend(r[..1], r[1..], "txt");
  }

  /** A name ends as the text after its head does. */
  lemma HeadEnding(s: string, x: string)
    requires ParseHead(s).Some? && EndsWith(ParseHead(s).value.rest, x)
    ensures EndsWith(s, x)
  {
    var h := ParseHead(s).value;
    EndsWithAppend(IdText(h.id) + ".", h.rest, x);
  }

  lemma PhenotypeTailEnding(r: string)
    requires PhenotypeTail(r)
    ensures EndsWith(r, ".txt")
  {
    var split1 := SplitDigits(r[1..], ".c").value;
    var participants, r2 := split1.0, split1.1;
    var split2 := SplitDigits(r2, ".").value;
    var consent, q := split2.0, split2.1;
    EndsWithAppend(consent + ".", q, ".txt");
    EndsWithAppend(participants + ".c", r2, ".txt");
    assert r == r[..1] + r[1..];
    EndsWithAppend(r[..1], r[1..], ".txt");
  }

  lemma BodyEnding(k: FileType, s: string)
    requires Body(k, s)
    ensures k == DataDict || k == VarReport ==> EndsWith(s, ".xml")
    ensures k == Phenotype || k == Special ==> EndsWith(s, "txt")
    ensures k == Phenotype ==> EndsWith(s, ".txt")
  {
    BodyCorrect(k, s);
    RecognizedEnding(k, s);
  }

  lemma EndsWithAppend(a: string, b: string, x: string)
    requires EndsWith(b, x)
    ensures EndsWith(a + b, x)
  {
    assert (a + b)[|a + b| - |x|..] == b[|b| - |x|..];
  }

  /** No grammar matches a name that ends in a line feed. */
  lemma NoBodyEndsInNewline(k: FileType, s: string)
    requires EndsWith(s, "\n")
    ensures !Body(k, s)
  {
    assert s[|s| - 1] == '\n';
    if Body(k, s) {
      BodyEnding(k, s);
    }
  }

  /** The text the grammars must match in full: the name without the line
      feed that may end it, since `$` also matches just before it. */
  function MatchedText(name: string): string {
    if EndsWith(name, "\n") then name[..|name| - 1] else name
  }

  /** Does `re.match` find the grammar of key `k` in `name`? */
  function Recognize(k: FileType, name: string): (b: bool)
    ensures b <==> Matches(k, name)
  {
    BodyCorrect(k, MatchedText(name));
    if EndsWith(name, "\n") then
      NoBodyEndsInNewline(k, name);
      RecognizeBody(k, MatchedText(name))
    else
      RecognizeBody(k, MatchedText(name))
  }

  lemma MatchesText(k: FileType, name: string)
    ensures Matches(k, name) <==> Body(k, MatchedText(name))
  {
    if EndsWith(name, "\n") {
      NoBodyEndsInNewline(k, name);
    }
  }

  /** Position `i` of `keys` holds the first key whose grammar matches. */
  ghost predicate FirstMatch(keys: seq<FileType>, name: string, i: int) {
    0 <= i < |keys| && Matches(keys[i], name) && forall j :: 0 <= j < i ==> !Matches(keys[j], name)
  }

  /** `sort_file(basename, re_dict)`: `keys` is the order in which the table
      yields its keys. The result is the first key in that order whose
      grammar matches, and nothing exactly when no key's grammar matches. */
  function SortFile(name: string, keys: seq<FileType>): (r: Option<FileType>)
    ensures r.Some? ==> r.value in keys && Matches(r.value, name)
    ensures r.Some? ==> exists i :: FirstMatch(keys, name, i) && keys[i] == r.value
    ensures r.None? <==> forall k :: k in keys ==> !Matches(k, name)
  {
    if keys == [] then None
    else if Recognize(keys[0], name) then
      assert FirstMatch(keys, name, 0);
      Some(keys[0])
    else
      var r := SortFile(name, keys[1..]);
      FirstMatchLater(keys, name, r);
      r
  }

  lemma FirstMatchLater(keys: seq<FileType>, name: string, r: Option<FileType>)
    requires keys != [] && !Matches(keys[0], name)
    requires r.Some? ==> exists i :: FirstMatch(keys[1..], name, i) && keys[1..][i] == r.value
    requires r.None? <==> forall k :: k in keys[1..] ==> !Matches(k, name)
    ensures r.Some? ==> exists i :: FirstMatch(keys, name, i) && keys[i] == r.value
    ensures r.None? <==> forall k :: k in keys ==> !Matches(k, name)
  {
    if r.Some? {
      var i :| FirstMatch(keys[1..], name, i) && keys[1..][i] == r.value;
      assert FirstMatch(keys, name, i + 1);
    }
    assert keys == [keys[0]] + keys[1..];
  }

  /** A key order holds every key of the table. */
  predicate Complete(keys: seq<FileType>) {
    DataDict in keys && Phenotype in keys && VarReport in keys && Special in keys
  }

  /** The order in which the table is written. Python 3.4 does not promise
      that a dict yields its keys in this order; SortFile is stated for
      every order. */
  const TableOrder: seq<FileType> := [DataDict, Phenotype, VarReport, Special]

  lemma TableOrderComplete()
    ensures forall k :: k in TableOrder
  {
    forall k | true ensures k in TableOrder {
      match k
      case DataDict => assert TableOrder[0] == k;
      case Phenotype => assert TableOrder[1] == k;
      case VarReport => assert TableOrder[2] == k;
      case Special => assert TableOrder[3] == k;
    }
  }

  /** Classifies a base name with the table in its written order. */
  function Classify(name: string): (r: Option<FileType>)
    ensures r.Some? ==> Matches(r.value, name)
    ensures r.None? <==> forall k :: !Matches(k, name)
  {
    TableOrderComplete();
    SortFile(name, TableOrder)
  }

  /** In the written order phenotype comes before special, so a name that
      both grammars match is classified as phenotype. */
  lemma {:induction false} PhenotypeBeforeSpecial(name: string)
    ensures Classify(name) == Some(Special) ==> !Matches(Phenotype, name)
  {
    if Classify(name) == Some(Special) {
      var i :| FirstMatch(TableOrder, name, i) && TableOrder[i] == Special;
      assert i == 3;
      assert TableOrder[1] == Phenotype;
    }
  }

  /** The data_dict and var_report tails cannot both accept one text: the
      segment after the last dot starts with `.data_dict` for one and
      `.var_report` for the other. */
  lemma KeywordTailsDisjoint(r: string)
    ensures KeywordTail(r, ".data_dict") ==> !KeywordTail(r, ".var_report")
  {
    if KeywordTail(r, ".data_dict") {
      var m := r[..|r| - 4];
      var w := m[LastDot(m).value..];
      assert w[1] == 'd';
    }
  }

  lemma XmlIsNotTxt(s: string)
    ensures !(EndsWith(s, ".xml") && EndsWith(s, "txt"))
  {
    if EndsWith(s, ".xml") {
      assert s[|s| - 1] == 'l';
    }
  }

  /** At most one recognizer accepts a text, except that phenotype and
      special can both accept it. */
  lemma {:induction false} RecognizedExclusive(k1: FileType, k2: FileType, s: string)
    requires k1 != k2 && RecognizeBody(k1, s) && RecognizeBody(k2, s)
    ensures (k1 == Phenotype && k2 == Special) || (k1 == Special && k2 == Phenotype)
  {
    var rest := ParseHead(s).value.rest;
    var xml1 := k1 == DataDict || k1 == VarReport;
    var xml2 := k2 == DataDict || k2 == VarReport;
    if xml1 && xml2 {
      KeywordTailsDisjoint(rest);
    } else if xml1 || xml2 {
      RecognizedEnding(k1, s);
      RecognizedEnding(k2, s);
      XmlIsNotTxt(s);
    }
  }

  /** At most one grammar matches a name, except that phenotype and
      special can both match. */
  lemma {:induction false} Exclusive(k1: FileType, k2: FileType, name: string)
    requires k1 != k2 && Matches(k1, name) && Matches(k2, name)
    ensures (k1 == Phenotype && k2 == Special) || (k1 == Special && k2 == Phenotype)
  {
    MatchesText(k1, name);
    MatchesText(k2, name);
    BodyCorrect(k1, MatchedText(name));
    BodyCorrect(k2, MatchedText(name));
    RecognizedExclusive(k1, k2, MatchedText(name));
  }

  /** A name that a grammar matches is classified under that grammar's key,
      unless it is a special name that phenotype also matches. */
  lemma {:induction false} ClassifyOf(k: FileType, name: string)
    requires Matches(k, name) && (k == Special ==> !Matches(Phenotype, name))
    ensures Classify(name) == Some(k)
  {
    var r := Classify(name);
    assert r.Some?;
    if r.value != k {
      Exclusive(k, r.value, name);
      PhenotypeBeforeSpecial(name);
    }
  }

  /** The first key the table yields wins when its grammar matches. */
  lemma FirstKeyWins(name: string, keys: seq<FileType>)
    requires keys != [] && Matches(keys[0], name)
    ensures SortFile(name, keys) == Some(keys[0])
  {
  }

  /** The converse of OrderIrrelevant: when phenotype and special both
      match a name, the written order gives phenotype and an order that
      yields special first gives special. */
  lemma {:induction false} OrderMatters(name: string)
    requires Matches(Phenotype, name) && Matches(Special, name)
    ensures Classify(name) == Some(Phenotype)
    ensures SortFile(name, [Special, Phenotype, DataDict, VarReport]) == Some(Special)
  {
    ClassifyOf(Phenotype, name);
    FirstKeyWins(name, [Special, Phenotype, DataDict, VarReport]);
  }

  /** Any two orders of the full table classify a name alike unless both
      phenotype and special match it: only those two grammars overlap. */
  lemma {:induction false} OrderIrrelevant(name: string, keys1: seq<FileType>, keys2: seq<FileType>)
    requires Complete(keys1) && Complete(keys2)
    requires !(Matches(Phenotype, name) && Matches(Special, name))
    ensures SortFile(name, keys1) == SortFile(name, keys2)
  {
    var r1, r2 := SortFile(name, keys1), SortFile(name, keys2);
    if r1.Some? && r2.Some? && r1.value != r2.value {
      Exclusive(r1.value, r2.value, name);
    }
    if r1.None? {
      assert r2.None? by {
        forall k | k in keys2 ensures !Matches(k, name) {
          assert k in keys1 by { CompleteHasAll(keys1, k); }
        }
      }
    }
    if r2.None? {
      assert r1.None? by {
        forall k | k in keys1 ensures !Matches(k, name) {
          assert k in keys2 by { CompleteHasAll(keys2, k); }
        }
      }
    }
  }

  lemma CompleteHasAll(keys: seq<FileType>, k: FileType)
    requires Complete(keys)
    ensures k in keys
  {
    match k
    case DataDict =>
    case Phenotype =>
    case VarReport =>
    case Special =>
  }

  /** SortFile looks at a name only through which grammars match it. */
  lemma {:induction false} SortFileRespects(name1: string, name2: string, keys: seq<FileType>)
    requires forall k :: Matches(k, name1) <==> Matches(k, name2)
    ensures SortFile(name1, keys) == SortFile(name2, keys)
  {
    if keys != [] {
      SortFileRespects(name1, name2, keys[1..]);
    }
  }
}
