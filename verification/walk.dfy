/** `main`: walks the download directory and prints, for every file it
    finds, the key its base name is classified under (or `None`) and the
    name. The walk is a parameter: the file names of each visited
    directory, in the order the walk visits them. */
module Walk {
  import opened Text
  import opened Grammars
  import opened Classifier

  /** The file names of a walk, directory by directory. */
  function Flatten(walk: seq<seq<string>>): seq<string> {
    if walk == [] then [] else Flatten(walk[..|walk| - 1]) + walk[|walk| - 1]
  }

  /** A name is among those of the walk exactly when some visited
      directory lists it: nothing is lost and nothing is added. */
  lemma {:induction false} FlattenHas(walk: seq<seq<string>>, name: string)
    ensures name in Flatten(walk) <==> exists d :: 0 <= d < |walk| && name in walk[d]
  {
    if walk != [] {
      var init := walk[..|walk| - 1];
      FlattenHas(init, name);
      if name in Flatten(walk) && name !in walk[|walk| - 1] {
        var d :| 0 <= d < |init| && name in init[d];
        assert walk[d] == init[d];
      }
      if d :| 0 <= d < |walk| && name in walk[d] {
        if d < |walk| - 1 {
          assert init[d] == walk[d];
        }
      }
    }
  }

  lemma FlattenStep(walk: seq<seq<string>>, d: nat)
    requires d < |walk|
    ensures Flatten(walk[..d + 1]) == Flatten(walk[..d]) + walk[d]
  {
    assert walk[..d + 1][..d] == walk[..d];
  }

  /** How `print` writes a classification: the key, or `None`. */
  function Shown(r: Option<FileType>): string {
    match r
    case None => "None"
    case Some(k) => k.Key()
  }

  /** The line printed for one file: its classification, a space, the name. */
  function Line(name: string): string {
    Shown(Classify(name)) + " " + name
  }

  /** Different classifications print differently, so the first word of a
      line tells which key, if any, the file was sorted under. */
  lemma ShownInjective(r1: Option<FileType>, r2: Option<FileType>)
    ensures Shown(r1) == Shown(r2) <==> r1 == r2
  {
  }

  /** `lines` is what `main` prints for `names`, one line per name. */
  predicate Printed(lines: seq<string>, names: seq<string>) {
    |lines| == |names| && forall i :: 0 <= i < |lines| ==> lines[i] == Line(names[i])
  }

  lemma PrintedAppend(lines: seq<string>, names: seq<string>, name: string)
    requires Printed(lines, names)
    ensures Printed(lines + [Line(name)], names + [name])
  {
  }

  lemma PrefixStep(done: seq<string>, files: seq<string>, j: nat)
    requires j < |files|
    ensures done + files[..j + 1] == (done + files[..j]) + [files[j]]
  {
    assert files[..j + 1] == files[..j] + [files[j]];
  }

  /** Classifies every file of the walk, in walk order; the result is the
      printed output, one line per file. */
  method Organize(walk: seq<seq<string>>) returns (lines: seq<string>)
    ensures Printed(lines, Flatten(walk))
  {
    lines := [];
    var d := 0;
    while d < |walk|
      invariant 0 <= d <= |walk|
      invariant Printed(lines, Flatten(walk[..d]))
    {
      var files := walk[d];
      var done := Flatten(walk[..d]);
      var j := 0;
      while j < |files|
        invariant 0 <= j <= |files|
        invariant Printed(lines, done + files[..j])
      {
        var fileType := Classify(files[j]);
        PrintedAppend(lines, done + files[..j], files[j]);
        lines := lines + [Shown(fileType) + " " + files[j]];
        PrefixStep(done, files, j);
        j := j + 1;
      }
      FlattenStep(walk, d);
      assert files[..j] == files;
      d := d + 1;
    }
    assert walk[..|walk|] == walk;
  }
}
