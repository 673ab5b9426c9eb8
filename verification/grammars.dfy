/** The table of dbGaP file-name grammars (`dbgap_re_dict`), stated
    declaratively: a name matches a grammar when it can be cut into the
    literal pieces, digit runs, word runs and non-empty "any" runs that
    the regular expression names, in order. */
module Grammars {
  import opened Text

  /** The four keys of the grammar table. */
  datatype FileType = DataDict | Phenotype | VarReport | Special {
    /** The key under which the grammar is stored in the table. */
    function Key(): string {
      match this
      case DataDict => "data_dict"
      case Phenotype => "phenotype"
      case VarReport => "var_report"
      case Special => "special"
    }
  }

  /** The groups every grammar opens with: study accession `phs`, study
      version `phs_v`, dataset accession `pht` and dataset version `pht_v`. */
  datatype DbgapId = DbgapId(phs: string, phsVersion: string, pht: string, phtVersion: string)

  /** Six-digit accessions and non-empty numeric versions. */
  predicate ValidId(id: DbgapId) {
    Digits(id.phs, 6) && DigitRun(id.phsVersion) && Digits(id.pht, 6) && DigitRun(id.phtVersion)
  }

  /** The dataset identifier as it appears in the file name,
      e.g. `phs000284.v1.pht001903.v1`. */
  function IdText(id: DbgapId): string {
    "phs" + id.phs + ".v" + id.phsVersion + ".pht" + id.pht + ".v" + id.phtVersion
  }

  /** The name `data_dict` describes: the identifier, a dot, a base,
      `.data_dict`, a suffix, `.xml`. */
  function DataDictName(id: DbgapId, base: string, extra: string): string {
    IdText(id) + "." + base + ".data_dict" + extra + ".xml"
  }

  /** `data_dict`: a non-empty base and a suffix of one or more word
      characters. */
  ghost predicate DataDictBody(s: string) {
    exists id, base, extra ::
      ValidId(id) && AnyRun(base) && WordRun(extra) && s == DataDictName(id, base, extra)
  }

  /** The name `phenotype` describes: the identifier, `.p` and a
      participant-set number, `.c` and a consent-group number, then two
      dot-separated parts and `.txt`. */
  function PhenotypeName(id: DbgapId, participants: string, consent: string, base: string, variant: string): string {
    IdText(id) + ".p" + participants + ".c" + consent + "." + base + "." + variant + ".txt"
  }

  /** `phenotype`: digit runs for the two numbers, two non-empty parts. */
  ghost predicate PhenotypeBody(s: string) {
    exists id, participants, consent, base, variant ::
      ValidId(id) && DigitRun(participants) && DigitRun(consent) && AnyRun(base) && AnyRun(variant) &&
      s == PhenotypeName(id, participants, consent, base, variant)
  }

  /** The name `var_report` describes: the identifier, a dot, a base,
      `.var_report`, a suffix, `.xml`. */
  function VarReportName(id: DbgapId, base: string, extra: string): string {
    IdText(id) + "." + base + ".var_report" + extra + ".xml"
  }

  /** `var_report`: a non-empty base and a suffix of one or more word
      characters. */
  ghost predicate VarReportBody(s: string) {
    exists id, base, extra ::
      ValidId(id) && AnyRun(base) && WordRun(extra) && s == VarReportName(id, base, extra)
  }

  /** The name `special` describes: the identifier, `.p` and a
      participant-set number, a dot, a base, `.MULTI`, one character `c`,
      `txt`. */
  function SpecialName(id: DbgapId, participants: string, base: string, c: char): string {
    IdText(id) + ".p" + participants + "." + base + ".MULTI" + [c] + "txt"
  }

  /** `special`: a digit run, a non-empty base, and any character but a
      line feed as `c`: the table leaves the dot before `txt` unescaped,
      so it is a wildcard. */
  ghost predicate SpecialBody(s: string) {
    exists id, participants, base, c ::
      ValidId(id) && DigitRun(participants) && AnyRun(base) && c != '\n' &&
      s == SpecialName(id, participants, base, c)
  }

  /** The grammar of table key `k`, without its final `$`. */
  ghost predicate Body(k: FileType, s: string) {
    match k
    case DataDict => DataDictBody(s)
    case Phenotype => PhenotypeBody(s)
    case VarReport => VarReportBody(s)
    case Special => SpecialBody(s)
  }

  /** `re.match(pattern, name)` finds a match: the final `$` matches at the
      end of the name or just before a line feed that ends it. */
  ghost predicate Matches(k: FileType, name: string) {
    Body(k, name) || (EndsWith(name, "\n") && Body(k, name[..|name| - 1]))
  }
}
