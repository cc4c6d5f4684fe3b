/**
 * A section of a tab: a named run of measures over a fixed list of string
 * names.  The measure list is edited in place (append, resize, delete);
 * appending a measure whose string count differs from the section's throws,
 * which is modelled as a `thrown` result with the list left as it was.
 */
module Sections {
  import opened Wrappers
  import opened EditorConfig
  import opened Measures
  import opened Cursor

  datatype SectionJson = SectionJson(measures: seq<MeasureJson>, stringNames: seq<string>, name: string)

  /** Every string object held by the given measures. */
  ghost function StringsOfMeasures(ms: seq<MeasureData>): set<StringData>
    reads ms
  {
    set m, s | m in ms && s in m.strings :: s
  }

  /** Every note object held by the given measures. */
  ghost function NotesOfMeasures(ms: seq<MeasureData>): set<NoteData>
    reads ms, StringsOfMeasures(ms)
  {
    set m, s, n | m in ms && s in m.strings && n in s.notes :: n
  }

  /** The JSON of a run of measures, measure by measure. */
  function MeasuresJson(ms: seq<MeasureData>): (r: seq<MeasureJson>)
    reads ms, StringsOfMeasures(ms), NotesOfMeasures(ms)
    ensures |r| == |ms|
    ensures forall i {:trigger r[i]} :: 0 <= i < |ms| ==> r[i] == ms[i].ToJson()
  {
    if ms == [] then []
    else
      assert forall s :: s in ms[0].strings ==> s in StringsOfMeasures(ms);
      assert NotesOf(ms[0].strings) <= NotesOfMeasures(ms);
      assert StringsOfMeasures(ms[1..]) <= StringsOfMeasures(ms);
      assert NotesOfMeasures(ms[1..]) <= NotesOfMeasures(ms);
      [ms[0].ToJson()] + MeasuresJson(ms[1..])
  }

  /** The section made by SectionData.default(c). */
  function DefaultSectionJson(c: Config): (s: SectionJson)
    ensures |s.measures| == Count(c.startMeasures)
    ensures forall i :: 0 <= i < |s.measures| ==> s.measures[i] == DefaultMeasureJson(c)
    ensures s.stringNames == c.stringNames && s.name == ""
  {
    SectionJson(seq(Count(c.startMeasures), _ => DefaultMeasureJson(c)), c.stringNames, "")
  }

  /** Whether adding the default measure of `c` to a section over `stringNames` throws. */
  predicate DefaultMeasureMisfits(c: Config, stringNames: seq<string>)
  {
    Count(c.startStrings) != |stringNames|
  }

  /**
   * The index JavaScript's splice(index, 1) starts at: a negative index counts
   * from the end (clamped at 0), a positive one is clamped at the length.
   */
  function SpliceStart(index: int, length: nat): (start: nat)
    ensures start <= length
    ensures 0 <= index ==> start == if index < length then index else length
    ensures index < 0 ==> start == if length + index < 0 then 0 else length + index
  {
    if index < 0 then (if length + index < 0 then 0 else length + index)
    else if index < length then index
    else length
  }

  /** ASCII lower case; other characters are left alone. */
  function LowerChar(c: char): (r: char)
    ensures 'A' <= c <= 'Z' ==> 'a' <= r <= 'z' && r as int - c as int == 32
    ensures !('A' <= c <= 'Z') ==> r == c
  {
    if 'A' <= c <= 'Z' then (c as int + 32) as char else c
  }

  function Lower(s: string): (r: string)
    ensures |r| == |s| && forall i :: 0 <= i < |s| ==> r[i] == LowerChar(s[i])
  {
    seq(|s|, i requires 0 <= i < |s| => LowerChar(s[i]))
  }

  /** The three ways a string name can answer to a typed letter, strongest first. */
  datatype MatchKind = Exact | CaseInsensitive | Prefix

  predicate Matches(name: string, letter: string, kind: MatchKind)
  {
    match kind
    case Exact => name == letter
    case CaseInsensitive => Lower(name) == Lower(letter)
    case Prefix => letter <= name
  }

  /** The first index whose name matches in the given way, if any. */
  function {:induction false} FirstMatch(names: seq<string>, letter: string, kind: MatchKind): (r: Option<nat>)
    ensures r.Some? ==> r.value < |names| && Matches(names[r.value], letter, kind)
    ensures r.Some? ==> forall j :: 0 <= j < r.value ==> !Matches(names[j], letter, kind)
    ensures r.None? ==> forall j :: 0 <= j < |names| ==> !Matches(names[j], letter, kind)
  {
    if names == [] then None
    else if Matches(names[0], letter, kind) then Some(0)
    else match FirstMatch(names[1..], letter, kind)
      case None => None
      case Some(i) => Some(i + 1)
  }

  /**
   * The string selectStringWithName picks: the first exact match, else the
   * first case-insensitive match, else the first name the letter is a prefix
   * of, else none.
   */
  function StringChoice(names: seq<string>, letter: string): (r: Option<nat>)
    ensures r.Some? ==> r.value < |names|
  {
    if FirstMatch(names, letter, Exact).Some? then FirstMatch(names, letter, Exact)
    else if FirstMatch(names, letter, CaseInsensitive).Some? then FirstMatch(names, letter, CaseInsensitive)
    else FirstMatch(names, letter, Prefix)
  }

  /** An exact match is also a case-insensitive one, and a prefix; so every kind finds a name when a stronger one does. */
  lemma ExactMatchesEveryWay(names: seq<string>, letter: string)
    ensures FirstMatch(names, letter, Exact).Some? ==> FirstMatch(names, letter, CaseInsensitive).Some?
    ensures FirstMatch(names, letter, Exact).Some? ==> FirstMatch(names, letter, Prefix).Some?
    ensures StringChoice(names, letter).None? <==> FirstMatch(names, letter, CaseInsensitive).None? && FirstMatch(names, letter, Prefix).None?
  {
    var e := FirstMatch(names, letter, Exact);
    if e.Some? {
      assert Matches(names[e.value], letter, CaseInsensitive);
      assert Matches(names[e.value], letter, Prefix);
    }
  }

  /** Index i holds a match of the given kind and no index before it does. */
  predicate FirstAt(names: seq<string>, i: int, letter: string, kind: MatchKind)
  {
    0 <= i < |names| && Matches(names[i], letter, kind) && forall j :: 0 <= j < i ==> !Matches(names[j], letter, kind)
  }

  /** FirstMatch finds exactly the index FirstAt describes, and nothing when no name matches. */
  lemma FirstAtIsFirstMatch(names: seq<string>, letter: string)
    ensures forall i, kind :: FirstAt(names, i, letter, kind) ==> FirstMatch(names, letter, kind) == Some(i)
    ensures forall kind :: (forall j :: 0 <= j < |names| ==> !Matches(names[j], letter, kind)) ==> FirstMatch(names, letter, kind).None?
  {
    forall i, kind | FirstAt(names, i, letter, kind) ensures FirstMatch(names, letter, kind) == Some(i) {
      var r := FirstMatch(names, letter, kind);
      assert r.Some?;
    }
  }

  /** A name equal to the letter, with none before it, is where every way of matching stops. */
  lemma FirstMatchFound(names: seq<string>, i: nat, letter: string)
    requires i < |names| && names[i] == letter
    requires forall j :: 0 <= j < i ==> !Matches(names[j], letter, Exact)
    ensures StringChoice(names, letter) == Some(i)
  {
    FirstAtIsFirstMatch(names, letter);
    assert FirstAt(names, i, letter, Exact);
  }

  class SectionData {
    var measures: seq<MeasureData>
    var stringNames: seq<string>
    var name: string

    constructor (measures: seq<MeasureData>, stringNames: seq<string>, name: string)
      ensures this.measures == measures && this.stringNames == stringNames && this.name == name
    {
      this.measures := measures;
      this.stringNames := stringNames;
      this.name := name;
    }

    function ToJson(): (j: SectionJson)
      reads this, measures, StringsOfMeasures(measures), NotesOfMeasures(measures)
      ensures j.stringNames == stringNames && j.name == name && |j.measures| == |measures|
    {
      SectionJson(MeasuresJson(measures), stringNames, name)
    }

    /** Every measure has one string per string name. */
    predicate Uniform()
      reads this, measures
    {
      forall m :: m in measures ==> |m.strings| == |stringNames|
    }

    static method FromJson(j: SectionJson) returns (s: SectionData)
      ensures fresh(s) && s.ToJson() == j
      ensures forall m :: m in s.measures ==> fresh(m)
    {
      var measures: seq<MeasureData> := [];
      while |measures| < |j.measures|
        invariant |measures| <= |j.measures|
        invariant forall k :: 0 <= k < |measures| ==> fresh(measures[k]) && measures[k].ToJson() == j.measures[k]
      {
        label BeforeAlloc:
        var m := MeasureData.FromJson(j.measures[|measures|]);
        forall k | 0 <= k < |measures| ensures measures[k].ToJson() == j.measures[k] {
          MeasureJsonKept@BeforeAlloc(measures[k]);
        }
        measures := measures + [m];
      }
      label BeforeNew:
      s := new SectionData(measures, j.stringNames, j.name);
      forall k | 0 <= k < |measures| ensures measures[k].ToJson() == j.measures[k] {
        MeasureJsonKept@BeforeNew(measures[k]);
      }
      assert MeasuresJson(s.measures) == j.measures;
    }

    /**
     * addMeasure: throws, changing nothing, when the measure's string count is
     * not the section's; otherwise appends it, which keeps every measure at
     * the section's string count.
     */
    method AddMeasure(measure: MeasureData) returns (thrown: bool)
      modifies this
      ensures thrown <==> |measure.strings| != |stringNames|
      ensures thrown ==> measures == old(measures)
      ensures !thrown ==> measures == old(measures) + [measure]
      ensures stringNames == old(stringNames) && name == old(name)
      ensures old(Uniform()) ==> Uniform()
    {
      if |measure.strings| != |stringNames| {
        return true;
      }
      measures := measures + [measure];
      thrown := false;
    }

    /** addDefaultMeasure: append a new default measure of `c`, or throw as addMeasure does. */
    method AddDefaultMeasure(c: Config) returns (thrown: bool)
      modifies this
      ensures thrown <==> DefaultMeasureMisfits(c, stringNames)
      ensures thrown ==> measures == old(measures)
      ensures !thrown ==> |measures| == |old(measures)| + 1 && measures[..|old(measures)|] == old(measures)
      ensures !thrown ==> fresh(measures[|old(measures)|]) && measures[|old(measures)|].ToJson() == DefaultMeasureJson(c)
      ensures stringNames == old(stringNames) && name == old(name)
      ensures old(Uniform()) ==> Uniform()
    {
      var m := MeasureData.Default(c);
      thrown := AddMeasure(m);
    }

    /**
     * The loop of setMeasures: append new default measures of `c` until there
     * are `k`, stopping at the first one that throws.
     */
    method PadWithDefaults(k: int, c: Config) returns (thrown: bool)
      modifies this
      ensures thrown <==> |old(measures)| < k && DefaultMeasureMisfits(c, stringNames)
      ensures |old(measures)| <= |measures| && measures[..|old(measures)|] == old(measures)
      ensures thrown || |old(measures)| >= k ==> measures == old(measures)
      ensures !thrown && |old(measures)| < k ==> |measures| == k
      ensures forall i :: |old(measures)| <= i < |measures| ==> fresh(measures[i]) && measures[i].ToJson() == DefaultMeasureJson(c)
      ensures stringNames == old(stringNames) && name == old(name)
      ensures old(Uniform()) ==> Uniform()
    {
      var ms := measures;
      thrown := false;
      while |ms| < k
        invariant unchanged(this)
        invariant |old(measures)| <= |ms| && ms[..|old(measures)|] == old(measures)
        invariant |ms| <= k || ms == old(measures)
        invariant forall i :: |old(measures)| <= i < |ms| ==> fresh(ms[i]) && ms[i].ToJson() == DefaultMeasureJson(c)
        invariant DefaultMeasureMisfits(c, stringNames) ==> ms == old(measures)
      {
        label BeforeAlloc:
        var m := MeasureData.Default(c);
        if |m.strings| != |stringNames| {
          assert ms == old(measures);
          return true;
        }
        forall i | |old(measures)| <= i < |ms| ensures ms[i].ToJson() == DefaultMeasureJson(c) {
          MeasureJsonKept@BeforeAlloc(ms[i]);
        }
        ms := ms + [m];
      }
      label BeforeCommit:
      measures := ms;
      forall i | |old(measures)| <= i < |ms| ensures ms[i].ToJson() == DefaultMeasureJson(c) {
        MeasureJsonKept@BeforeCommit(ms[i]);
      }
    }

    /**
     * setMeasures(k): at least one measure; the list is cut to k, keeping the
     * measures it had up to there, then padded with new default measures.
     * Padding throws at the first default measure that does not fit.
     */
    method SetMeasures(numMeasures: int, c: Config) returns (thrown: bool)
      modifies this
      ensures var k := if numMeasures <= 0 then 1 else numMeasures;
        var kept := if |old(measures)| < k then |old(measures)| else k;
        && kept <= |measures|
        && measures[..kept] == old(measures)[..kept]
        && (thrown <==> |old(measures)| < k && DefaultMeasureMisfits(c, stringNames))
        && (thrown ==> measures == old(measures))
        && (!thrown ==> |measures| == k)
        && (forall i :: kept <= i < |measures| ==> fresh(measures[i]) && measures[i].ToJson() == DefaultMeasureJson(c))
      ensures stringNames == old(stringNames) && name == old(name)
      ensures old(Uniform()) ==> Uniform()
    {
      var k := numMeasures;
      if k <= 0 {
        k := 1;
      }
      if k < |measures| {
        measures := measures[..k];
      }
      thrown := PadWithDefaults(k, c);
    }

    /**
     * selectStringWithName(selection, letter): move the selection to the
     * string `StringChoice` picks, or leave it where it is when none answers.
     * Only the selected string changes.
     */
    method SelectStringWithName(selection: Selection, letter: string)
      modifies selection
      ensures var choice := StringChoice(stringNames, letter);
        selection.Pos() == old(selection.Pos()).(str := if choice.Some? then choice.value else old(selection.selectedString))
    {
      var candidates: seq<int> := [];
      var caseCandidates: seq<int> := [];
      var i := 0;
      while i < |stringNames|
        invariant 0 <= i <= |stringNames|
        invariant unchanged(selection)
        invariant forall j :: 0 <= j < i ==> !Matches(stringNames[j], letter, Exact)
        invariant caseCandidates == [] <==> forall j :: 0 <= j < i ==> !Matches(stringNames[j], letter, CaseInsensitive)
        invariant caseCandidates != [] ==> FirstAt(stringNames, caseCandidates[0], letter, CaseInsensitive)
        invariant caseCandidates == [] ==> (candidates == [] <==> forall j :: 0 <= j < i ==> !Matches(stringNames[j], letter, Prefix))
        invariant caseCandidates == [] && candidates != [] ==> FirstAt(stringNames, candidates[0], letter, Prefix)
      {
        var name := stringNames[i];
        if name == letter {
          FirstMatchFound(stringNames, i, letter);
          selection.selectedString := i;
          return;
        } else if Lower(name) == Lower(letter) {
          caseCandidates := caseCandidates + [i];
        } else if letter <= name {
          candidates := candidates + [i];
        }
        i := i + 1;
      }
      FirstAtIsFirstMatch(stringNames, letter);
      if |caseCandidates| > 0 {
        selection.selectedString := caseCandidates[0];
        return;
      }
      if |candidates| > 0 {
        selection.selectedString := candidates[0];
        return;
      }
    }

    /**
     * deleteMeasure(i): splice(i, 1) -- remove the measure at i, keeping the
     * order of the rest; a negative i counts from the end, and an i at or past
     * the end removes nothing.
     */
    method DeleteMeasure(index: int)
      modifies this
      ensures var start := SpliceStart(index, |old(measures)|);
        if start < |old(measures)| then measures == old(measures)[..start] + old(measures)[start + 1..]
        else measures == old(measures)
      ensures 0 <= index < |old(measures)| ==>
        && |measures| == |old(measures)| - 1
        && (forall j :: 0 <= j < index ==> measures[j] == old(measures)[j])
        && (forall j :: index <= j < |measures| ==> measures[j] == old(measures)[j + 1])
      ensures stringNames == old(stringNames) && name == old(name)
      ensures old(Uniform()) ==> Uniform()
    {
      var start := SpliceStart(index, |measures|);
      if start < |measures| {
        measures := measures[..start] + measures[start + 1..];
      }
    }

    /**
     * SectionData.default(c): a section over a copy of c's string names, named
     * "", holding c.startMeasures new default measures; it throws (None) when
     * there is a measure to add and the default measure does not fit the names.
     */
    static method Default(c: Config) returns (r: Option<SectionData>)
      ensures r.None? <==> Count(c.startMeasures) > 0 && DefaultMeasureMisfits(c, c.stringNames)
      ensures r.Some? ==> fresh(r.value) && r.value.ToJson() == DefaultSectionJson(c)
      ensures r.Some? ==> forall m :: m in r.value.measures ==> fresh(m)
      ensures r.Some? ==> r.value.Uniform()
    {
      var section := new SectionData([], c.stringNames, "");
      var thrown := section.PadWithDefaults(c.startMeasures, c);
      if thrown {
        return None;
      }
      assert MeasuresJson(section.measures) == DefaultSectionJson(c).measures;
      r := Some(section);
    }
  }

  /** A section's JSON depends on its own fields and on the objects under its measures only. */
  twostate lemma SectionJsonKept(s: SectionData)
    requires unchanged(s) && unchanged(s.measures)
    requires unchanged(StringsOfMeasures(s.measures)) && unchanged(NotesOfMeasures(s.measures))
    ensures s.ToJson() == old(s.ToJson())
  {
  }
}
