# dbGaP download classifier

A model of the filename classifier of `organize_dbgap.py`. A dbGaP
download holds, for each dataset `phs<6 digits>.v<n>.pht<6 digits>.v<n>`,
a data dictionary (`...data_dict<word>.xml`), a variable report
(`...var_report<word>.xml`), one phenotype text file per participant set and
consent group (`...p<n>.c<n>.<base>.<part>.txt`) and, for subject, sample
and pedigree data, multi-consent files (`...p<n>.<base>.MULTI.txt`). The
table `dbgap_re_dict` holds one regular expression per kind, `sort_file`
gives the key of the first expression that `re.match` accepts, and `main`
walks the download and prints each file's key (or `None`) with its name.

Modules, leaves first:

- `Text` (`text.dfy`): character classes, digit runs, word runs, and the
  small parsers the recognizers use (the whole leading digit run, which is
  all the lazy `\d+?` can take before a non-digit delimiter, and the last
  dot of a text).
- `Grammars` (`grammars.dfy`): the four keys and the four expressions as
  declarative predicates. Each predicate says the name is built by
  `DataDictName`, `PhenotypeName`, `VarReportName` or `SpecialName` from a
  valid identifier and pieces of the right kinds. `Matches(k, name)` adds
  the `$` rule of `re.match`: the grammar must match the whole name, or the
  name less one final line feed.
- `Recognizers` (`recognizers.dfy`): an executable recognizer per
  expression, proved to accept exactly what the grammar describes.
- `Classifier` (`classifier.dfy`): `sort_file` over any key order, the
  classification in the order the table is written, and how the grammars
  overlap.
- `Names` (`names.dfy`): the dataset identifier of a classified name, the
  class of every name a grammar builds, and names the anchors reject.
- `Examples` (`examples.dfy`): the names of the unit tests and a few more.
  Each name is written as the identifier text plus the rest of the name,
  which keeps the proofs about it small.
- `Walk` (`walk.dfy`): `main`'s loop over the directory walk.

The table is a Python 3.4 dict, whose iteration order is not promised.
`SortFile` therefore takes the order as a parameter and `Classify` uses the
written order; `Classifier.OrderIrrelevant` and `Classifier.OrderMatters`
show exactly when the order matters: only for names that both phenotype and
special match. The special expression does not restrict the base (to
`Subject`, `Sample`, `Pedigree` or anything else), and the model does not
either.

## Model

| member | source | states |
|---|---|---|
| Grammars.DataDictBody | organize_dbgap.py:11 | data_dict accepts the identifier, a dot, a non-empty base of characters other than a line feed, `.data_dict`, one or more word characters, `.xml` |
| Grammars.PhenotypeBody | organize_dbgap.py:12 | phenotype accepts the identifier, `.p` and a digit run, `.c` and a digit run, a dot, two non-empty parts without line feeds joined by a dot, `.txt` |
| Grammars.VarReportBody | organize_dbgap.py:13 | var_report accepts the identifier, a dot, a non-empty base, `.var_report`, one or more word characters, `.xml` |
| Grammars.SpecialBody | organize_dbgap.py:14 | special accepts the identifier, `.p` and a digit run, a dot, a non-empty base, `.MULTI`, any one character but a line feed (the unescaped dot), `txt` |
| Grammars.Matches | organize_dbgap.py:19 | `re.match` with the expression of key `k` succeeds: the grammar covers the whole name, or the name less one final line feed, since `$` also matches before it |
| Recognizers.ParseAccessionOf | organize_dbgap.py:11 | `phs` or `pht`, six digits, `.v`, a digit run and a dot parse back into exactly those pieces |
| Recognizers.ParseHead | organize_dbgap.py:11-14 | a parsed head is a valid identifier (six-digit accessions, non-empty digit versions) followed by a dot, and the name is that head plus the rest |
| Recognizers.ParseHeadOf | organize_dbgap.py:11-14 | the head of a name built from a valid identifier is that identifier: the dataset prefix splits in one way only |
| Recognizers.DataDictOf | organize_dbgap.py:11 | the recognizer accepts every name the data_dict expression describes |
| Recognizers.DataDictCorrect | organize_dbgap.py:11 | the data_dict recognizer accepts a text if and only if the data_dict expression matches all of it |
| Recognizers.PhenotypeOf | organize_dbgap.py:12 | the recognizer accepts every name the phenotype expression describes |
| Recognizers.PhenotypeCorrect | organize_dbgap.py:12 | the phenotype recognizer accepts a text if and only if the phenotype expression matches all of it |
| Recognizers.VarReportOf | organize_dbgap.py:13 | the recognizer accepts every name the var_report expression describes |
| Recognizers.VarReportCorrect | organize_dbgap.py:13 | the var_report recognizer accepts a text if and only if the var_report expression matches all of it |
| Recognizers.SpecialOf | organize_dbgap.py:14 | the recognizer accepts every name the special expression describes |
| Recognizers.SpecialCorrect | organize_dbgap.py:14 | the special recognizer accepts a text if and only if the special expression matches all of it |
| Classifier.BodyEnding | organize_dbgap.py:11-14 | every name a grammar matches ends in `.xml` (data_dict, var_report), `.txt` (phenotype) or `txt` (special) |
| Classifier.NoBodyEndsInNewline | organize_dbgap.py:11-14 | no grammar matches a text that ends in a line feed |
| Classifier.Recognize | organize_dbgap.py:19-20 | the check of one key is true exactly when `re.match` finds that key's expression in the name, `$` included |
| Classifier.MatchesText | organize_dbgap.py:19 | an expression matches a name if and only if its grammar matches the name less a final line feed |
| Classifier.SortFile | organize_dbgap.py:17-23 | for any key order: the result is a key whose expression matches, no earlier key matches, and the result is `None` exactly when no key matches |
| Classifier.Classify | organize_dbgap.py:17-23 | with the table in written order: a result is a key whose expression matches, and `None` exactly when no expression matches |
| Classifier.PhenotypeBeforeSpecial | organize_dbgap.py:11-15 | a name classified as special is not a phenotype name, because phenotype comes first |
| Classifier.RecognizedExclusive | organize_dbgap.py:11-14 | two different recognizers accept one text only when they are phenotype and special |
| Classifier.Exclusive | organize_dbgap.py:11-14 | two different expressions match one name only when they are phenotype and special; data_dict, var_report and phenotype exclude each other |
| Classifier.ClassifyOf | organize_dbgap.py:17-23 | a name an expression matches is classified under that key, unless it is special and phenotype matches too |
| Classifier.OrderIrrelevant | organize_dbgap.py:18 | any two orders of the full table give the same result for every name that phenotype and special do not both match |
| Classifier.FirstKeyWins | organize_dbgap.py:18-21 | when the first key the table yields matches, it is the result |
| Classifier.OrderMatters | organize_dbgap.py:11-21 | for every name both phenotype and special match, the written order gives phenotype and an order that yields special first gives special |
| Classifier.SortFileRespects | organize_dbgap.py:17-23 | names matched by the same expressions are sorted alike |
| Names.MatchedNoNewline | organize_dbgap.py:11-14 | a name a grammar matches has no final line feed to drop |
| Names.ClassifiedHead | organize_dbgap.py:11-14 | a classified name starts with a valid dataset identifier and a dot |
| Names.DatasetId | test_organize_dbgap.py:28 | a name has a dataset identifier exactly when it is classified; the identifier is a valid one and the name starts with it and a dot |
| Names.DatasetIdOf | organize_dbgap.py:11-14 | a name built by any grammar from identifier `id` has `IdText(id)` as its dataset identifier |
| Names.DataDictClassified | organize_dbgap.py:11 | every data_dict name is classified as data_dict, with its own dataset identifier |
| Names.PhenotypeClassified | organize_dbgap.py:12 | every phenotype name is classified as phenotype, with its own dataset identifier |
| Names.VarReportClassified | organize_dbgap.py:13 | every var_report name is classified as var_report, with its own dataset identifier |
| Names.SpecialClassified | organize_dbgap.py:14 | a special name is classified as phenotype if phenotype matches it and as special otherwise, with its own dataset identifier |
| Names.UnanchoredEnding | organize_dbgap.py:11-14 | a name that, less a final line feed, ends neither in `xml` nor in `txt` is not classified |
| Names.Compressed | organize_dbgap.py:11-14 | no name followed by `.gz` is classified |
| Names.FinalNewline | organize_dbgap.py:19 | adding one line feed to a name without one leaves its class unchanged |
| Names.DataDictLast | organize_dbgap.py:11 | in a data_dict name the segment between the last dot and `.xml` is `data_dict` followed by at least one character |
| Names.VarReportLast | organize_dbgap.py:13 | in a var_report name the segment between the last dot and `.xml` is `var_report` followed by at least one character |
| Names.LastSegment | organize_dbgap.py:11-14 | an `.xml` name whose last segment is not `data_dict` or `var_report` followed by more characters is not classified |
| Examples.PhenotypeExample | test_organize_dbgap.py:23-28 | the consent-group text file of the tests is phenotype, with dataset identifier `phs000284.v1.pht001903.v1` |
| Examples.DataDictExample | test_organize_dbgap.py:30-35 | the data dictionary of the tests is data_dict, with dataset identifier `phs000284.v1.pht001903.v1` |
| Examples.VarReportExample | test_organize_dbgap.py:37-42 | the variable report of the tests is var_report, with dataset identifier `phs000284.v1.pht001903.v1` |
| Examples.CompressedExample | test_organize_dbgap.py:44-49 | the compressed variable report of the tests is not classified and has no dataset identifier |
| Examples.BareDataDictExample | organize_dbgap.py:11 | `phs000284.v1.pht001903.v1.CFS.data_dict.xml` is not classified |
| Examples.DottedVarReportExample | organize_dbgap.py:13 | `phs000284.v1.pht001903.v1.CFS.var_report_x.y.xml` is not classified |
| Examples.SubjectIsPhenotype | organize_dbgap.py:12 | `phs000284.v1.pht001903.v1.p1.c1.Subject.MULTI.txt` is classified as phenotype |
| Examples.SubjectIsSpecial | organize_dbgap.py:14 | the same name is also described by the special expression |
| Examples.OverlapExample | organize_dbgap.py:11-21 | that name matches phenotype and special; the written order gives phenotype and an order yielding special first gives special |
| Examples.WildcardExample | organize_dbgap.py:14 | the unescaped dot of `MULTI.txt` accepts any character: `...p1.Subject.MULTIxtxt` is special |
| Walk.FlattenHas | organize_dbgap.py:29-30 | the names the loop visits are exactly the files listed by the directories of the walk, none lost and none added |
| Walk.ShownInjective | organize_dbgap.py:34 | different classifications print as different first words |
| Walk.Organize | organize_dbgap.py:25-34 | one printed line per walked file, in walk order: its key or `None`, a space, the name |

## Left out

- The change of working directory, `os.walk` and `print`: `Walk.Organize`
  takes the walk as a sequence of per-directory file lists and returns the
  printed lines.
- `root_directory` is a path used only for that I/O.
- `patterns_to_link` is never used.
- The class `DbgapFile`, which the tests import, is not defined in
  `organize_dbgap.py`. The tests pass paths with a directory part; the
  model classifies base names, as `main` does with the names `os.walk`
  gives. `test_str` and `_get_test_dbgap_filename` have nothing to model.
- Capture groups: the expressions have no `dbgap_id` group, though the tests
  read one. `Names.DatasetId` gives the identifier those tests expect; the
  other groups are not returned.
- `\d` and `\w` are modelled on ASCII: Python 3 also lets them match other
  Unicode digits and letters.
- Classifier.SortFile: `re_dict` may be any dict of any patterns; the model takes a
  sequence of the four table keys, which may also repeat a key, as a dict
  cannot.
- Python 3.4 dict order: `Classify` uses the written order. Any other
  order is covered only through `SortFile`'s parameter.
- The plan in the closing string literal of `organize_dbgap.py` (lines
  39-49) is not code.
