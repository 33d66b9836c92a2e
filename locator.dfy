/**
 * Best-effort discovery of the file a compress command produced. The directory
 * is a given sequence of entries in the order the glob yields them; each entry
 * carries its size, or nothing when it disappeared or could not be examined.
 */
module Locator {
  import opened Wrappers
  import opened Text

  datatype Candidate = Candidate(name: string, size: Option<nat>)

  /** `glob(infile + "*")`: the entries whose name starts with `infile`, in order. */
  function Glob(entries: seq<Candidate>, infile: string): (r: seq<Candidate>)
    ensures forall c :: c in r <==> c in entries && StartsWith(c.name, infile)
  {
    if entries == [] then []
    else
      var last := entries[|entries| - 1];
      var init := entries[..|entries| - 1];
      assert entries == init + [last];
      Glob(init, infile) + (if StartsWith(last.name, infile) then [last] else [])
  }

  /** An entry that can be the compressed artifact: present, non-empty, and not the
      input file itself. */
  predicate Qualifies(c: Candidate, infile: string) {
    c.size.Some? && c.size.value > 0 && c.name != infile
  }

  /** `name.endswith(tuple(extensions))`; an empty list matches nothing. */
  predicate HasExtension(name: string, extensions: seq<string>) {
    exists e :: e in extensions && EndsWith(name, e)
  }

  predicate Preferred(c: Candidate, infile: string, extensions: seq<string>) {
    Qualifies(c, infile) && HasExtension(c.name, extensions)
  }

  /** The index of the first qualifying candidate, or `|cs|`. */
  function FirstQualifying(cs: seq<Candidate>, infile: string): (k: nat)
    ensures k <= |cs|
    ensures k < |cs| ==> Qualifies(cs[k], infile)
    ensures forall j :: 0 <= j < k ==> !Qualifies(cs[j], infile)
  {
    if cs == [] then 0
    else if Qualifies(cs[0], infile) then 0
    else
      var k := 1 + FirstQualifying(cs[1..], infile);
      assert forall j :: 1 <= j < k ==> cs[j] == cs[1..][j - 1];
      k
  }

  /** The index of the first qualifying candidate with a recognised extension, or `|cs|`. */
  function FirstPreferred(cs: seq<Candidate>, infile: string, extensions: seq<string>): (k: nat)
    ensures k <= |cs|
    ensures k < |cs| ==> Preferred(cs[k], infile, extensions)
    ensures forall j :: 0 <= j < k ==> !Preferred(cs[j], infile, extensions)
  {
    if cs == [] then 0
    else if Preferred(cs[0], infile, extensions) then 0
    else
      var k := 1 + FirstPreferred(cs[1..], infile, extensions);
      assert forall j :: 1 <= j < k ==> cs[j] == cs[1..][j - 1];
      k
  }

  /** The artifact the runner picks: the first qualifying candidate with a
      recognised extension, else the first qualifying candidate, else none. */
  function Located(cs: seq<Candidate>, infile: string, extensions: seq<string>): Option<string> {
    var p := FirstPreferred(cs, infile, extensions);
    var q := FirstQualifying(cs, infile);
    if p < |cs| then Some(cs[p].name)
    else if q < |cs| then Some(cs[q].name)
    else None
  }

  /** The candidate loop: remember the first qualifying name, stop at the first
      qualifying name with a recognised extension. */
  method SelectArtifact(infile: string, extensions: seq<string>, cs: seq<Candidate>)
    returns (compressedPath: Option<string>)
    ensures compressedPath == Located(cs, infile, extensions)
  {
    compressedPath := None;
    var i := 0;
    while i < |cs|
      invariant i <= |cs|
      invariant forall j :: 0 <= j < i ==> !Preferred(cs[j], infile, extensions)
      invariant compressedPath == if FirstQualifying(cs, infile) < i
                                  then Some(cs[FirstQualifying(cs, infile)].name) else None
    {
      var c := cs[i];
      if c.size.Some? && c.size.value > 0 && c.name != infile {
        if HasExtension(c.name, extensions) {
          compressedPath := Some(c.name);
          assert FirstPreferred(cs, infile, extensions) == i;
          return;
        } else if compressedPath == None {
          compressedPath := Some(c.name);
        }
      }
      i := i + 1;
    }
  }

  /** The chosen artifact is a qualifying candidate: present, non-empty, and not
      the input file. */
  lemma LocatedQualifies(cs: seq<Candidate>, infile: string, extensions: seq<string>)
    ensures var r := Located(cs, infile, extensions);
            r.Some? ==> exists c :: c in cs && Qualifies(c, infile) && c.name == r.value
  {
    var p := FirstPreferred(cs, infile, extensions);
    var q := FirstQualifying(cs, infile);
    if p < |cs| {
      assert cs[p] in cs;
    } else if q < |cs| {
      assert cs[q] in cs;
    }
  }

  /** Nothing is chosen exactly when no candidate qualifies. */
  lemma LocatedNoneExactly(cs: seq<Candidate>, infile: string, extensions: seq<string>)
    ensures Located(cs, infile, extensions).None? <==> forall c :: c in cs ==> !Qualifies(c, infile)
  {
    var q := FirstQualifying(cs, infile);
    if q < |cs| {
      assert cs[q] in cs;
    }
    if exists c :: c in cs && Qualifies(c, infile) {
      var c :| c in cs && Qualifies(c, infile);
      var j :| 0 <= j < |cs| && cs[j] == c;
      assert q <= j;
    }
  }

  /** A qualifying candidate with a recognised extension wins over every candidate
      before it that lacks one; without such a candidate, the first qualifying one
      is chosen. */
  lemma LocatedPrefersExtension(cs: seq<Candidate>, infile: string, extensions: seq<string>, j: nat)
    requires j < |cs|
    ensures Preferred(cs[j], infile, extensions)
            && (forall i :: 0 <= i < j ==> !Preferred(cs[i], infile, extensions))
            ==> Located(cs, infile, extensions) == Some(cs[j].name)
    ensures Qualifies(cs[j], infile)
            && (forall i :: 0 <= i < j ==> !Qualifies(cs[i], infile))
            && (forall c :: c in cs ==> !Preferred(c, infile, extensions))
            ==> Located(cs, infile, extensions) == Some(cs[j].name)
  {
    var p := FirstPreferred(cs, infile, extensions);
    if p < |cs| {
      assert cs[p] in cs;
    }
  }

  /** With no recognised extension, the first qualifying candidate is chosen. */
  lemma NoExtensionsTakesFirst(cs: seq<Candidate>, infile: string)
    ensures var q := FirstQualifying(cs, infile);
            Located(cs, infile, []) == if q < |cs| then Some(cs[q].name) else None
  {
  }

  /** What the runner locates after a compress run belongs to that run's input: its
      name extends the input path, and is not the input path itself. */
  lemma LocatedExtendsInput(entries: seq<Candidate>, infile: string, extensions: seq<string>)
    ensures var r := Located(Glob(entries, infile), infile, extensions);
            r.Some? ==> StartsWith(r.value, infile) && r.value != infile
  {
    LocatedQualifies(Glob(entries, infile), infile, extensions);
  }
}
