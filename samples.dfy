/**
 * One sample of the UShER placement table and its class label
 * (`SampleInfo` and `SampleInfo.splitMuts` in usher_PDF_report.py).
 */
module Samples {
  import opened Options
  import opened Text

  /** The label `SampleInfo.hasIssue` ends with: exactly one of four. */
  datatype Issue = NoIssue | VariantOfConcern | VariantOfInterest | MutationOfConcern

  /** The text the report prints for a label. */
  function Label(issue: Issue): string
  {
    match issue
    case NoIssue => "None"
    case VariantOfConcern => "Variant of Concern"
    case VariantOfInterest => "Variant of Interest"
    case MutationOfConcern => "Mutation of Concern"
  }

  /** A watch-list: a Python dict from identifier to origin, in insertion order. */
  type WatchList = seq<(string, string)>

  /** `d.keys()`, in dictionary order. */
  function Keys(w: WatchList): seq<string>
  {
    seq(|w|, i requires 0 <= i < |w| => w[i].0)
  }

  /** A dict never holds a key twice. */
  predicate DistinctKeys(w: WatchList)
  {
    forall i, j :: 0 <= i < j < |w| ==> w[i].0 != w[j].0
  }

  /** The variants of concern the script hard-codes. */
  const Vocs: WatchList := [
    ("B.1.1.7", "United Kingdom"), ("P1", "Japan/Brazil"), ("B.1.351", "South Africa"),
    ("B.1.427", "California"), ("B.1.429", "California")]

  /** The variants of interest the script hard-codes. */
  const Vois: WatchList := [("B.1.526", "New York"), ("B.1.525", "New York"), ("P.2", "Brazil")]

  /** The spike mutations of concern the script hard-codes, in OrderedDict order. */
  const Mocs: WatchList := [
    ("D614G", "all Variants of Concern"), ("N501Y", "B.1.1.7; P1; B.1.351"), ("A570D", "B.1.1.7"),
    ("P681H", "B.1.1.7"), ("K417N", "B.1.351"), ("E484K", "B.1.351"), ("S13I", "B.1.429"),
    ("W152C", "B.1.429"), ("L452R", "B.1.427; B.1.429")]

  /** The exceptions a malformed line raises. */
  datatype ParseError =
    | MissingField(fieldCount: nat)      // IndexError on `fields[15]`
    | BadMutationToken(token: string)    // ValueError in `orf, mut = combi.split(':')`

  datatype Result<+T> = Ok(value: T) | Err(error: ParseError)

  /**
   * A `SampleInfo` object. `muts` and `spikeMuts` are attributes the constructor
   * never sets when it returns early on a variant match: `None` here.
   */
  datatype Sample = Sample(
    name: string,
    neighbor: string,
    issue: Issue,
    muts: Option<string>,
    spikeMuts: Option<seq<string>>)

  /** The argument of `mut.lstrip('S:')`: a set of characters, not a prefix. */
  const SpikeStripChars: set<char> := {'S', ':'}

  /** The tab-separated fields of a line, after `strip()`. */
  function Fields(line: string): seq<string>
  {
    Split(Strip(line), '\t')
  }

  predicate NoDuplicates(xs: seq<string>)
  {
    forall i, j :: 0 <= i < j < |xs| ==> xs[i] != xs[j]
  }

  /** `orf, mut = combi.split(':')`: succeeds only when there are exactly two pieces. */
  function SplitToken(combi: string): (r: Result<(string, string)>)
    ensures r.Ok? <==> Occurrences(combi, ':') == 1
    ensures r.Ok? ==> combi == r.value.0 + ":" + r.value.1
    ensures r.Err? ==> r.error == BadMutationToken(combi)
  {
    var parts := Split(combi, ':');
    SplitLength(combi, ':');
    if |parts| == 2 then
      JoinSplit(combi, ':');
      Ok((parts[0], parts[1]))
    else Err(BadMutationToken(combi))
  }

  /**
   * The set `splitMuts` builds from the comma-separated tokens, before the
   * watch-list filter: the `lstrip`ped change of every spike (`S`) token. The
   * first token that is not `ORF:change` raises.
   */
  function SpikeChanges(tokens: seq<string>): Result<set<string>>
    decreases |tokens|
  {
    if tokens == [] then Ok({})
    else
      match SpikeChanges(tokens[..|tokens| - 1])
      case Err(e) => Err(e)
      case Ok(prev) =>
        match SplitToken(tokens[|tokens| - 1])
        case Err(e) => Err(e)
        case Ok(pair) => Ok(if pair.0 == "S" then prev + {LStrip(pair.1, SpikeStripChars)} else prev)
  }

  /** The spike changes of a mutation field that are keys of `mocs`; an empty field has none. */
  function MocMatches(muts: string, mocs: WatchList): Result<set<string>>
  {
    if muts == "" then Ok({})
    else
      match SpikeChanges(Split(muts, ','))
      case Err(e) => Err(e)
      case Ok(changes) => Ok(set m | m in changes && m in Keys(mocs))
  }

  /** The label rules of `SampleInfo.__init__`, first match wins. */
  function Classify(neighbor: string, muts: string, vocs: WatchList, vois: WatchList, mocs: WatchList): Result<Issue>
  {
    if neighbor in Keys(vocs) then Ok(VariantOfConcern)
    else if neighbor in Keys(vois) then Ok(VariantOfInterest)
    else
      match MocMatches(muts, mocs)
      case Err(e) => Err(e)
      case Ok(found) => Ok(if found != {} then MutationOfConcern else NoIssue)
  }

  /** What a successfully built `SampleInfo` holds, given the watch-lists. */
  ghost predicate Classified(s: Sample, vocs: WatchList, vois: WatchList, mocs: WatchList)
  {
    if s.neighbor in Keys(vocs) then
      s.issue == VariantOfConcern && s.muts == None && s.spikeMuts == None
    else if s.neighbor in Keys(vois) then
      s.issue == VariantOfInterest && s.muts == None && s.spikeMuts == None
    else
      && s.muts.Some? && s.spikeMuts.Some?
      && MocMatches(s.muts.value, mocs).Ok?
      && NoDuplicates(s.spikeMuts.value)
      && (forall m :: m in s.spikeMuts.value <==> m in MocMatches(s.muts.value, mocs).value)
      && s.issue == (if s.spikeMuts.value != [] then MutationOfConcern else NoIssue)
  }

  /** Once a prefix of the tokens fails, the whole list fails the same way. */
  lemma {:induction false} SpikeChangesErrPersists(tokens: seq<string>, j: nat)
    requires j <= |tokens|
    requires SpikeChanges(tokens[..j]).Err?
    ensures SpikeChanges(tokens) == SpikeChanges(tokens[..j])
    decreases |tokens|
  {
    if j < |tokens| {
      var init := tokens[..|tokens| - 1];
      assert init[..j] == tokens[..j];
      SpikeChangesErrPersists(init, j);
    } else {
      assert tokens[..j] == tokens;
    }
  }

  /** `list(spikeMuts)`: the elements of a set, each once, in an order the model leaves open. */
  method ListOfSet(s: set<string>) returns (xs: seq<string>)
    ensures NoDuplicates(xs)
    ensures forall m :: m in xs <==> m in s
  {
    xs := [];
    var rest := s;
    while rest != {}
      invariant rest <= s
      invariant NoDuplicates(xs)
      invariant forall m :: m in xs <==> m in s && m !in rest
      decreases |rest|
    {
      var m :| m in rest;
      xs := xs + [m];
      rest := rest - {m};
    }
  }

  /** `[m for m in xs if m in mutConcern]`. */
  function KeepKeys(xs: seq<string>, w: WatchList): (r: seq<string>)
    ensures forall m :: m in r <==> m in xs && m in Keys(w)
    ensures NoDuplicates(xs) ==> NoDuplicates(r)
    decreases |xs|
  {
    if xs == [] then []
    else if xs[0] in Keys(w) then [xs[0]] + KeepKeys(xs[1..], w)
    else KeepKeys(xs[1..], w)
  }

  /** `SampleInfo.splitMuts`: the spike changes of `muts` that are keys of `mutConcern`, each once. */
  method SplitMuts(muts: string, mutConcern: WatchList) returns (r: Result<seq<string>>)
    ensures var spec := SpikeChanges(Split(muts, ','));
      && (r.Err? <==> spec.Err?)
      && (r.Err? ==> r.error == spec.error)
      && (r.Ok? ==> NoDuplicates(r.value))
      && (r.Ok? ==> forall m :: m in r.value <==> m in spec.value && m in Keys(mutConcern))
  {
    var spikeMuts: set<string> := {};
    var byORF := Split(muts, ',');
    for i := 0 to |byORF|
      invariant SpikeChanges(byORF[..i]) == Ok(spikeMuts)
    {
      var combi := byORF[i];
      assert byORF[..i + 1][..i] == byORF[..i];
      var pair := SplitToken(combi);
      if pair.Err? {
        SpikeChangesErrPersists(byORF, i + 1);
        return Err(pair.error);
      }
      var orf, mut := pair.value.0, pair.value.1;
      if orf == "S" {
        spikeMuts := spikeMuts + {LStrip(mut, SpikeStripChars)};
      }
    }
    assert byORF[..|byORF|] == byORF;
    var listed := ListOfSet(spikeMuts);
    r := Ok(KeepKeys(listed, mutConcern));
  }

  /**
   * What building a `SampleInfo` from `inline` yields: a missing field 15 is an
   * error; otherwise the outcome is that of `Classify` on fields 15 and 2, and a
   * built sample has name field 0, neighbour field 15, the label `Classify`
   * chose and the attributes `Classified` describes.
   */
  ghost predicate ParsedFrom(r: Result<Sample>, inline: string, voConcern: WatchList, voInterest: WatchList, mutConcern: WatchList)
  {
    var f := Fields(inline);
    if |f| < 16 then r == Err(MissingField(|f|))
    else
      var c := Classify(f[15], f[2], voConcern, voInterest, mutConcern);
      && (r.Err? <==> c.Err?)
      && (r.Err? ==> r.error == c.error)
      && (r.Ok? ==> r.value.name == f[0] && r.value.neighbor == f[15] && r.value.issue == c.value)
      && (r.Ok? ==> Classified(r.value, voConcern, voInterest, mutConcern))
      && (r.Ok? && r.value.muts.Some? ==> r.value.muts.value == f[2])
  }

  /** `SampleInfo.__init__`: parse one line and give it its label, returning early on a variant match. */
  method ParseSample(inline: string, voConcern: WatchList, voInterest: WatchList, mutConcern: WatchList)
    returns (r: Result<Sample>)
    ensures ParsedFrom(r, inline, voConcern, voInterest, mutConcern)
  {
    var fields := Split(Strip(inline), '\t');
    if |fields| < 16 {
      return Err(MissingField(|fields|));
    }
    var name := fields[0];
    var neighbor := fields[15];
    var hasIssue := NoIssue;
    if neighbor in Keys(voConcern) {
      return Ok(Sample(name, neighbor, VariantOfConcern, None, None));
    }
    if neighbor in Keys(voInterest) {
      return Ok(Sample(name, neighbor, VariantOfInterest, None, None));
    }
    var muts := fields[2];
    var spikeMuts: seq<string>;
    if muts != "" {
      var split := SplitMuts(muts, mutConcern);
      if split.Err? {
        return Err(split.error);
      }
      spikeMuts := split.value;
      if |spikeMuts| > 0 {
        hasIssue := MutationOfConcern;
      }
      assert forall m :: m in spikeMuts <==> m in MocMatches(muts, mutConcern).value;
      assert spikeMuts != [] ==> spikeMuts[0] in MocMatches(muts, mutConcern).value;
    } else {
      spikeMuts := [];
    }
    return Ok(Sample(name, neighbor, hasIssue, Some(muts), Some(spikeMuts)));
  }
}

/** Properties of the label rules and of the spike-change extraction. */
module SampleLemmas {
  import opened Text
  import opened Samples

  /** First match wins: each label holds exactly when its rule is the first that applies. */
  lemma ClassifyPriority(neighbor: string, muts: string, vocs: WatchList, vois: WatchList, mocs: WatchList)
    ensures var c := Classify(neighbor, muts, vocs, vois, mocs);
      && (c == Ok(VariantOfConcern) <==> neighbor in Keys(vocs))
      && (c == Ok(VariantOfInterest) <==> neighbor !in Keys(vocs) && neighbor in Keys(vois))
      && (c == Ok(MutationOfConcern) <==>
            neighbor !in Keys(vocs) && neighbor !in Keys(vois)
            && MocMatches(muts, mocs).Ok? && MocMatches(muts, mocs).value != {})
      && (c == Ok(NoIssue) <==>
            neighbor !in Keys(vocs) && neighbor !in Keys(vois) && MocMatches(muts, mocs) == Ok({}))
      && (c.Err? <==> neighbor !in Keys(vocs) && neighbor !in Keys(vois) && MocMatches(muts, mocs).Err?)
  {
  }

  /** An empty mutation field never fails and never gives a mutation of concern. */
  lemma EmptyMutationField(neighbor: string, vocs: WatchList, vois: WatchList, mocs: WatchList)
    ensures Classify(neighbor, "", vocs, vois, mocs).Ok?
    ensures Classify(neighbor, "", vocs, vois, mocs).value != MutationOfConcern
    ensures neighbor !in Keys(vocs) && neighbor !in Keys(vois) ==> Classify(neighbor, "", vocs, vois, mocs) == Ok(NoIssue)
  {
  }

  /** A well-formed token splits back into its ORF and its change. */
  lemma TokenRoundTrip(orf: string, mut: string)
    requires ':' !in orf && ':' !in mut
    ensures SplitToken(orf + ":" + mut) == Ok((orf, mut))
  {
    SplitAfterHead(orf, mut, ':');
    SplitWithoutSeparator(mut, ':');
    assert orf + ":" + mut == orf + [':'] + mut;
  }

  /** Token `t` contributes change `m` to the spike set. */
  predicate SpikeTokenFor(t: string, m: string)
  {
    SplitToken(t).Ok? && SplitToken(t).value.0 == "S" && LStrip(SplitToken(t).value.1, SpikeStripChars) == m
  }

  /** The extraction fails exactly when some token is not `ORF:change`, and it reports the first such token. */
  lemma {:induction false} SpikeChangesFails(tokens: seq<string>)
    ensures SpikeChanges(tokens).Err? <==> exists t :: t in tokens && SplitToken(t).Err?
    ensures SpikeChanges(tokens).Err? ==>
      exists i :: 0 <= i < |tokens| && SpikeChanges(tokens).error == BadMutationToken(tokens[i])
        && SplitToken(tokens[i]).Err? && forall j :: 0 <= j < i ==> SplitToken(tokens[j]).Ok?
    decreases |tokens|
  {
    if tokens != [] {
      var n := |tokens| - 1;
      var init := tokens[..n];
      SpikeChangesFails(init);
      assert tokens == init + [tokens[n]];
      assert forall t :: t in tokens <==> t in init || t == tokens[n];
      if SpikeChanges(init).Err? {
        var i :| 0 <= i < |init| && SpikeChanges(init).error == BadMutationToken(init[i])
          && SplitToken(init[i]).Err? && forall j :: 0 <= j < i ==> SplitToken(init[j]).Ok?;
        assert tokens[i] == init[i];
      } else {
        assert forall j :: 0 <= j < n ==> SplitToken(tokens[j]).Ok? by {
          forall j | 0 <= j < n ensures SplitToken(tokens[j]).Ok? {
            assert tokens[j] == init[j] && init[j] in init;
          }
        }
      }
    }
  }

  /** A change is in the spike set exactly when some spike token yields it. */
  lemma {:induction false} SpikeChangesMembers(tokens: seq<string>, m: string)
    requires SpikeChanges(tokens).Ok?
    ensures m in SpikeChanges(tokens).value <==> exists t :: t in tokens && SpikeTokenFor(t, m)
    decreases |tokens|
  {
    if tokens != [] {
      var n := |tokens| - 1;
      var init := tokens[..n];
      SpikeChangesMembers(init, m);
      assert tokens == init + [tokens[n]];
      assert forall t :: t in tokens <==> t in init || t == tokens[n];
      var prev := SpikeChanges(init).value;
      var pair := SplitToken(tokens[n]).value;
      if pair.0 == "S" {
        assert SpikeChanges(tokens).value == prev + {LStrip(pair.1, SpikeStripChars)};
        assert SpikeTokenFor(tokens[n], m) <==> m == LStrip(pair.1, SpikeStripChars);
      } else {
        assert SpikeChanges(tokens).value == prev;
        assert !SpikeTokenFor(tokens[n], m);
      }
    }
  }

  /** The spike set depends on which tokens occur, not on their order or repetition. */
  lemma SpikeChangesOrderFree(a: seq<string>, b: seq<string>)
    requires forall t :: t in a <==> t in b
    ensures SpikeChanges(a).Ok? <==> SpikeChanges(b).Ok?
    ensures SpikeChanges(a).Ok? ==> SpikeChanges(a).value == SpikeChanges(b).value
  {
    SpikeChangesFails(a);
    SpikeChangesFails(b);
    if SpikeChanges(a).Ok? && SpikeChanges(b).Ok? {
      forall m ensures m in SpikeChanges(a).value <==> m in SpikeChanges(b).value {
        SpikeChangesMembers(a, m);
        SpikeChangesMembers(b, m);
      }
    }
  }

  /** A mutation field fails exactly when it is non-empty and one of its comma-separated tokens is not `ORF:change`. */
  lemma MocMatchesFails(muts: string, mocs: WatchList)
    ensures MocMatches(muts, mocs).Err? <==>
      muts != "" && exists t :: t in Split(muts, ',') && Occurrences(t, ':') != 1
  {
    if muts != "" {
      var tokens := Split(muts, ',');
      SpikeChangesFails(tokens);
      if MocMatches(muts, mocs).Err? {
        assert SpikeChanges(tokens).Err?;
        var t :| t in tokens && SplitToken(t).Err?;
        assert t in Split(muts, ',') && Occurrences(t, ':') != 1;
      } else {
        assert SpikeChanges(tokens).Ok?;
        forall t | t in tokens
          ensures Occurrences(t, ':') == 1
        {
          assert SplitToken(t).Ok?;
        }
      }
    }
  }

  /** `lstrip('S:')` leaves no stored change starting with `S` or `:`. */
  lemma {:induction false} SpikeChangesNoLeadingS(tokens: seq<string>, m: string)
    requires SpikeChanges(tokens).Ok?
    requires m in SpikeChanges(tokens).value
    ensures m == "" || m[0] !in SpikeStripChars
  {
    SpikeChangesMembers(tokens, m);
  }

  /**
   * A watch-list key that starts with `S` or `:` is never matched, whatever the
   * mutation field: `lstrip('S:')` removed every such leading character.
   */
  lemma UnmatchableKeys(muts: string, mocs: WatchList, k: string)
    requires k != "" && k[0] in SpikeStripChars
    ensures MocMatches(muts, mocs).Ok? ==> k !in MocMatches(muts, mocs).value
  {
    if muts != "" && MocMatches(muts, mocs).Ok? && k in MocMatches(muts, mocs).value {
      SpikeChangesNoLeadingS(Split(muts, ','), k);
    }
  }

  /** The token `S:S13I` contributes the change `13I`, not `S13I`. */
  lemma S13IStoredAs13I()
    ensures SpikeTokenFor("S:S13I", "13I")
    ensures !SpikeTokenFor("S:S13I", "S13I")
  {
    TokenRoundTrip("S", "S13I");
    assert "S" + ":" + "S13I" == "S:S13I";
    LStripUnique("S", "13I", SpikeStripChars);
    assert "S" + "13I" == "S13I";
  }

  /** So the script's own watch-list entry `S13I` can never be reported. */
  lemma S13INeverMatches(muts: string)
    ensures "S13I" in Keys(Mocs)
    ensures MocMatches(muts, Mocs).Ok? ==> "S13I" !in MocMatches(muts, Mocs).value
  {
    assert Mocs[6].0 == "S13I";
    assert Keys(Mocs)[6] == "S13I";
    UnmatchableKeys(muts, Mocs, "S13I");
  }
}
