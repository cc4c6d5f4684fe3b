/**
 * Notes, strings and measures of a tab.  A note holds a fret number or
 * nothing; a string of a measure is the row of its notes; a measure is one
 * row per string plus its number of beats.  All three are objects edited in
 * place by the editor, and each has a JSON form that is a plain value.
 *
 * JavaScript arithmetic on a missing (null) fret reads it as 0, which is
 * what `FretValue` says.  `range(n)` is taken to give n indices, none when
 * n <= 0; the Range.ts helper is not part of this model.
 */
module Measures {
  import opened Wrappers
  import opened EditorConfig

  datatype NoteJson = NoteJson(fretNumber: Option<int>)
  datatype StringJson = StringJson(notes: seq<NoteJson>)
  datatype MeasureJson = MeasureJson(strings: seq<StringJson>, beats: int)

  /** The frets increment and decrement cycle through: 0 to 19. */
  const FretCount: int := 20

  /** The number a fret takes part in arithmetic as. */
  function FretValue(f: Option<int>): (v: int)
    ensures f.Some? ==> v == f.value
    ensures f.None? ==> v == 0
  {
    if f.Some? then f.value else 0
  }

  /** `range(n)`'s length. */
  function Count(n: int): (r: nat)
    ensures n > 0 ==> r == n
    ensures n <= 0 ==> r == 0
  {
    if n <= 0 then 0 else n
  }

  /** No object appears twice. */
  predicate Unshared<T(==)>(s: seq<T>)
  {
    forall i, j :: 0 <= i < j < |s| ==> s[i] != s[j]
  }

  /** increment: one fret up, from 19 (or beyond) back to 0. */
  function Incremented(v: int): (r: int)
    ensures -1 <= v < FretCount ==> 0 <= r < FretCount && r == (v + 1) % FretCount
    ensures v >= FretCount - 1 ==> r == 0
  {
    if v + 1 >= FretCount then 0 else v + 1
  }

  /** decrement: one fret down, from 0 (or below) to 19. */
  function Decremented(v: int): (r: int)
    ensures 0 <= v <= FretCount ==> 0 <= r < FretCount && r == (v - 1) % FretCount
    ensures v <= 0 ==> r == FretCount - 1
  {
    if v - 1 < 0 then FretCount - 1 else v - 1
  }

  /** On the frets 0 to 19, increment and decrement undo each other. */
  lemma FretStepsInverse(v: int)
    requires 0 <= v < FretCount
    ensures Decremented(Incremented(v)) == v
    ensures Incremented(Decremented(v)) == v
  {
  }

  /**
   * addNumber(n, capo): a digit typed on a note one fret above the capo makes
   * a two-digit fret 1n above the capo; any other digit sets the fret to n
   * above the capo.
   */
  function Typed(fret: int, n: int, capo: int): (r: int)
    ensures fret - capo == 1 ==> r - capo == 10 + n
    ensures fret - capo != 1 ==> r - capo == n
  {
    if fret - capo == 1 then 10 + n + capo else n + capo
  }

  /**
   * Typing two digits on a note not one fret above the capo: "1" then d gives
   * fret 10 + d above the capo; any other first digit is replaced by d.
   */
  lemma TwoDigitEntry(fret: int, d1: int, d2: int, capo: int)
    requires fret - capo != 1
    requires 0 <= d1 <= 9 && 0 <= d2 <= 9
    ensures Typed(fret, d1, capo) - capo == d1
    ensures Typed(Typed(fret, d1, capo), d2, capo) - capo == if d1 == 1 then 10 + d2 else d2
  {
  }

  class NoteData {
    var fretNumber: Option<int>

    constructor (fretNumber: Option<int>)
      ensures this.fretNumber == fretNumber
    {
      this.fretNumber := fretNumber;
    }

    function ToJson(): (j: NoteJson)
      reads this
      ensures j.fretNumber == fretNumber
    {
      NoteJson(fretNumber)
    }

    static method FromJson(j: NoteJson) returns (n: NoteData)
      ensures fresh(n) && n.ToJson() == j
    {
      n := new NoteData(j.fretNumber);
    }

    /** default: a new empty note. */
    static method Default() returns (n: NoteData)
      ensures fresh(n) && n.fretNumber == None
    {
      n := new NoteData(None);
    }

    method Increment()
      modifies this
      ensures fretNumber == Some(Incremented(FretValue(old(fretNumber))))
    {
      var v := FretValue(fretNumber) + 1;
      if v >= FretCount {
        v := 0;
      }
      fretNumber := Some(v);
    }

    method Decrement()
      modifies this
      ensures fretNumber == Some(Decremented(FretValue(old(fretNumber))))
    {
      var v := FretValue(fretNumber) - 1;
      if v < 0 {
        v := FretCount - 1;
      }
      fretNumber := Some(v);
    }

    method AddNumber(n: int, capo: int)
      modifies this
      ensures fretNumber == Some(Typed(FretValue(old(fretNumber)), n, capo))
    {
      if FretValue(fretNumber) - capo == 1 {
        fretNumber := Some(10 + n + capo);
      } else {
        fretNumber := Some(n + capo);
      }
    }

    method SetNull()
      modifies this
      ensures fretNumber == None
    {
      fretNumber := None;
    }

    /** clone: a new note with the same fret; changing one leaves the other alone. */
    method Clone() returns (c: NoteData)
      ensures fresh(c) && c.fretNumber == fretNumber
    {
      c := new NoteData(fretNumber);
    }
  }

  /** The JSON of a row of notes, note by note. */
  function NotesJson(ns: seq<NoteData>): (r: seq<NoteJson>)
    reads ns
    ensures |r| == |ns|
    ensures forall i {:trigger r[i]} :: 0 <= i < |ns| ==> r[i] == ns[i].ToJson()
  {
    if ns == [] then [] else [ns[0].ToJson()] + NotesJson(ns[1..])
  }

  /** `k` empty notes (none when k <= 0). */
  function Nulls(k: int): (r: seq<NoteJson>)
    ensures |r| == Count(k)
    ensures forall i :: 0 <= i < |r| ==> r[i] == NoteJson(None)
  {
    seq(Count(k), _ => NoteJson(None))
  }

  /**
   * A row of notes cut or padded to `k`: exactly k notes, the first
   * min(|ns|, k) as they were, the rest empty.
   */
  function ResizeNotes(ns: seq<NoteJson>, k: nat): (r: seq<NoteJson>)
    ensures |r| == k
    ensures forall i :: 0 <= i < |ns| && i < k ==> r[i] == ns[i]
    ensures forall i :: |ns| <= i < k ==> r[i] == NoteJson(None)
  {
    if |ns| >= k then ns[..k] else ns + Nulls(k - |ns|)
  }

  /** A row already of length k is left as it is. */
  lemma ResizeNotesIdempotent(ns: seq<NoteJson>, k: nat)
    ensures ResizeNotes(ResizeNotes(ns, k), k) == ResizeNotes(ns, k)
  {
    var r := ResizeNotes(ns, k);
    assert r[..k] == r;
  }

  class StringData {
    var notes: seq<NoteData>

    constructor (notes: seq<NoteData>)
      ensures this.notes == notes
    {
      this.notes := notes;
    }

    function ToJson(): (j: StringJson)
      reads this, notes
      ensures |j.notes| == |notes|
    {
      StringJson(NotesJson(notes))
    }

    static method FromJson(j: StringJson) returns (s: StringData)
      ensures fresh(s) && s.ToJson() == j
      ensures forall n :: n in s.notes ==> fresh(n)
      ensures Unshared(s.notes)
    {
      var notes: seq<NoteData> := [];
      while |notes| < |j.notes|
        invariant |notes| <= |j.notes|
        invariant forall k :: 0 <= k < |notes| ==> fresh(notes[k]) && notes[k].fretNumber == j.notes[k].fretNumber
        invariant Unshared(notes)
      {
        var n := NoteData.FromJson(j.notes[|notes|]);
        notes := notes + [n];
      }
      s := new StringData(notes);
      assert NotesJson(s.notes) == j.notes;
    }

    /** default(k): a string of k new empty notes. */
    static method Default(notesPerMeasure: int) returns (s: StringData)
      ensures fresh(s) && s.ToJson() == StringJson(Nulls(notesPerMeasure))
      ensures forall n :: n in s.notes ==> fresh(n)
      ensures Unshared(s.notes)
    {
      var notes: seq<NoteData> := [];
      while |notes| < Count(notesPerMeasure)
        invariant |notes| <= Count(notesPerMeasure)
        invariant forall k :: 0 <= k < |notes| ==> fresh(notes[k]) && notes[k].fretNumber == None
        invariant Unshared(notes)
      {
        var n := NoteData.Default();
        notes := notes + [n];
      }
      s := new StringData(notes);
      assert NotesJson(s.notes) == Nulls(notesPerMeasure);
    }

    /** clone: new notes with the same frets, so editing the copy never reaches the original. */
    method Clone() returns (c: StringData)
      ensures fresh(c) && c.ToJson() == ToJson()
      ensures forall n :: n in c.notes ==> fresh(n)
      ensures Unshared(c.notes)
    {
      var copies: seq<NoteData> := [];
      while |copies| < |notes|
        invariant |copies| <= |notes|
        invariant forall k :: 0 <= k < |copies| ==> fresh(copies[k]) && copies[k].fretNumber == notes[k].fretNumber
        invariant Unshared(copies)
      {
        var n := notes[|copies|].Clone();
        copies := copies + [n];
      }
      c := new StringData(copies);
      assert NotesJson(c.notes) == NotesJson(notes);
    }

    /**
     * The body of setBeats's loop for one string: drop the notes from index k
     * on, then append new empty notes until there are k.
     */
    method Resize(k: nat)
      modifies this
      ensures NotesJson(notes) == ResizeNotes(old(NotesJson(notes)), k)
      ensures forall n :: n in notes ==> n in old(notes) || fresh(n)
      ensures |notes| == k
      ensures var kept := if |old(notes)| < k then |old(notes)| else k;
        notes[..kept] == old(notes)[..kept]
      ensures forall i :: |old(notes)| <= i < k ==> fresh(notes[i])
    {
      ghost var before := NotesJson(notes);
      if |notes| > k {
        notes := notes[..k];
      }
      while |notes| < k
        invariant |notes| <= k || |notes| == |old(notes)|
        invariant |notes| <= k
        invariant |notes| >= |old(notes)| ==> notes[..|old(notes)|] == old(notes)
        invariant |notes| < |old(notes)| ==> notes == old(notes)[..|notes|]
        invariant forall i :: |old(notes)| <= i < |notes| ==> fresh(notes[i]) && notes[i].fretNumber == None
        invariant forall n :: n in notes ==> n in old(notes) || fresh(n)
      {
        var n := NoteData.Default();
        notes := notes + [n];
      }
      assert NotesJson(notes) == ResizeNotes(before, k);
    }
  }

  /** Every note object held by the given strings. */
  ghost function NotesOf(ss: seq<StringData>): set<NoteData>
    reads ss
  {
    set s, n | s in ss && n in s.notes :: n
  }

  /** The JSON of a measure's strings, string by string. */
  function StringsJson(ss: seq<StringData>): (r: seq<StringJson>)
    reads ss, NotesOf(ss)
    ensures |r| == |ss|
    ensures forall i {:trigger r[i]} :: 0 <= i < |ss| ==> r[i] == ss[i].ToJson()
  {
    if ss == [] then []
    else
      assert forall n :: n in ss[0].notes ==> n in NotesOf(ss);
      assert NotesOf(ss[1..]) <= NotesOf(ss);
      [ss[0].ToJson()] + StringsJson(ss[1..])
  }

  /** The measure made by MeasureData.default(c). */
  function DefaultMeasureJson(c: Config): (m: MeasureJson)
    ensures |m.strings| == Count(c.startStrings) && m.beats == c.startNotesPerMeasure
    ensures forall i :: 0 <= i < |m.strings| ==> m.strings[i].notes == Nulls(c.startNotesPerMeasure)
  {
    MeasureJson(seq(Count(c.startStrings), _ => StringJson(Nulls(c.startNotesPerMeasure))), c.startNotesPerMeasure)
  }

  /** What setBeats(k) makes of a measure. */
  function ResizedMeasure(m: MeasureJson, numBeats: int): (r: MeasureJson)
    ensures r.beats == if numBeats <= 0 then 1 else numBeats
    ensures |r.strings| == |m.strings|
    ensures forall i :: 0 <= i < |r.strings| ==> |r.strings[i].notes| == r.beats
    ensures forall i, j :: 0 <= i < |r.strings| && 0 <= j < |m.strings[i].notes| && j < r.beats ==>
      r.strings[i].notes[j] == m.strings[i].notes[j]
    ensures forall i, j :: 0 <= i < |r.strings| && |m.strings[i].notes| <= j < r.beats ==>
      r.strings[i].notes[j] == NoteJson(None)
  {
    var k := if numBeats <= 0 then 1 else numBeats;
    MeasureJson(seq(|m.strings|, i requires 0 <= i < |m.strings| => StringJson(ResizeNotes(m.strings[i].notes, k))), k)
  }

  /** strings.map(s => s.clone()): a new copy of every string, in order. */
  method CloneStrings(ss: seq<StringData>) returns (copies: seq<StringData>)
    ensures |copies| == |ss|
    ensures forall k :: 0 <= k < |ss| ==> fresh(copies[k]) && copies[k].ToJson() == ss[k].ToJson()
    ensures forall k, n :: 0 <= k < |copies| && n in copies[k].notes ==> fresh(n)
  {
    copies := [];
    while |copies| < |ss|
      invariant |copies| <= |ss|
      invariant forall k :: 0 <= k < |copies| ==> fresh(copies[k]) && copies[k].ToJson() == ss[k].ToJson()
      invariant forall k, n :: 0 <= k < |copies| && n in copies[k].notes ==> fresh(n)
    {
      var s := ss[|copies|].Clone();
      copies := copies + [s];
    }
  }

  /**
   * The loop of setBeats: resize every string to `k` notes.  A string object
   * that appears twice is resized twice, to the same effect.
   */
  method ResizeStrings(ss: seq<StringData>, k: nat)
    modifies ss
    ensures forall j :: 0 <= j < |ss| ==> NotesJson(ss[j].notes) == ResizeNotes(old(NotesJson(ss[j].notes)), k)
  {
    var i := 0;
    while i < |ss|
      invariant 0 <= i <= |ss|
      invariant forall j :: 0 <= j < |ss| ==>
        (i <= j && NotesJson(ss[j].notes) == old(NotesJson(ss[j].notes))) ||
        NotesJson(ss[j].notes) == ResizeNotes(old(NotesJson(ss[j].notes)), k)
      invariant forall j :: 0 <= j < i ==> NotesJson(ss[j].notes) == ResizeNotes(old(NotesJson(ss[j].notes)), k)
    {
      var s := ss[i];
      ResizeNotesIdempotent(old(NotesJson(s.notes)), k);
      label BeforeResize:
      s.Resize(k);
      forall j | 0 <= j < |ss|
        ensures NotesJson(ss[j].notes) == ResizeNotes(old(NotesJson(ss[j].notes)), k) ||
          (i < j && NotesJson(ss[j].notes) == old(NotesJson(ss[j].notes)))
        ensures j <= i ==> NotesJson(ss[j].notes) == ResizeNotes(old(NotesJson(ss[j].notes)), k)
      {
        if ss[j] != s {
          assert NotesJson(ss[j].notes) == old@BeforeResize(NotesJson(ss[j].notes));
        }
      }
      i := i + 1;
    }
  }

  class MeasureData {
    var strings: seq<StringData>
    var beats: int

    constructor (strings: seq<StringData>, beats: int)
      ensures this.strings == strings && this.beats == beats
    {
      this.strings := strings;
      this.beats := beats;
    }

    function ToJson(): (j: MeasureJson)
      reads this, strings, NotesOf(strings)
      ensures j.beats == beats && |j.strings| == |strings|
    {
      MeasureJson(StringsJson(strings), beats)
    }

    static method FromJson(j: MeasureJson) returns (m: MeasureData)
      ensures fresh(m) && m.ToJson() == j
      ensures forall s :: s in m.strings ==> fresh(s)
      ensures forall s, n :: s in m.strings && n in s.notes ==> fresh(n)
    {
      var strings: seq<StringData> := [];
      while |strings| < |j.strings|
        invariant |strings| <= |j.strings|
        invariant forall k :: 0 <= k < |strings| ==> fresh(strings[k]) && strings[k].ToJson() == j.strings[k]
        invariant forall k, n :: 0 <= k < |strings| && n in strings[k].notes ==> fresh(n)
      {
        var s := StringData.FromJson(j.strings[|strings|]);
        strings := strings + [s];
      }
      m := new MeasureData(strings, j.beats);
      assert StringsJson(m.strings) == j.strings;
    }

    /** default(c): c.startStrings new strings of c.startNotesPerMeasure empty notes each. */
    static method Default(c: Config) returns (m: MeasureData)
      ensures fresh(m) && m.ToJson() == DefaultMeasureJson(c)
      ensures forall s :: s in m.strings ==> fresh(s)
      ensures forall s, n :: s in m.strings && n in s.notes ==> fresh(n)
    {
      var strings: seq<StringData> := [];
      while |strings| < Count(c.startStrings)
        invariant |strings| <= Count(c.startStrings)
        invariant forall k :: 0 <= k < |strings| ==> fresh(strings[k]) && strings[k].ToJson() == StringJson(Nulls(c.startNotesPerMeasure))
        invariant forall k, n :: 0 <= k < |strings| && n in strings[k].notes ==> fresh(n)
      {
        var s := StringData.Default(c.startNotesPerMeasure);
        strings := strings + [s];
      }
      m := new MeasureData(strings, c.startNotesPerMeasure);
      assert StringsJson(m.strings) == DefaultMeasureJson(c).strings;
    }

    /** clone: a copy down to the notes, with nothing shared with the original. */
    method Clone() returns (c: MeasureData)
      ensures fresh(c) && c.ToJson() == ToJson()
      ensures forall s :: s in c.strings ==> fresh(s)
      ensures forall s, n :: s in c.strings && n in s.notes ==> fresh(n)
    {
      var copies := CloneStrings(strings);
      c := new MeasureData(copies, beats);
      assert StringsJson(c.strings) == StringsJson(strings);
    }

    /**
     * setBeats(k): at least one beat; every string cut or padded to that many
     * notes, keeping the notes it had up to there.
     */
    method SetBeats(numBeats: int)
      modifies this, strings
      ensures strings == old(strings)
      ensures ToJson() == ResizedMeasure(old(ToJson()), numBeats)
    {
      var k := numBeats;
      if k <= 0 {
        k := 1;
      }
      ghost var before := ToJson();
      ResizeStrings(strings, k);
      beats := k;
      ghost var after := StringsJson(strings);
      forall j | 0 <= j < |strings|
        ensures after[j] == StringJson(ResizeNotes(before.strings[j].notes, k))
      {
        assert before.strings[j] == old(strings[j].ToJson());
      }
      ResizedStrings(before, after, numBeats);
    }
  }

  /** Strings resized one by one to the beat count make the resized measure's strings. */
  lemma ResizedStrings(m: MeasureJson, after: seq<StringJson>, numBeats: int)
    requires |after| == |m.strings|
    requires forall j :: 0 <= j < |after| ==>
      after[j] == StringJson(ResizeNotes(m.strings[j].notes, if numBeats <= 0 then 1 else numBeats))
    ensures after == ResizedMeasure(m, numBeats).strings
  {
  }

  /** A measure's JSON depends on its own fields, its strings' rows and their notes only. */
  twostate lemma MeasureJsonKept(m: MeasureData)
    requires unchanged(m) && unchanged(m.strings) && unchanged(NotesOf(m.strings))
    ensures m.ToJson() == old(m.ToJson())
  {
  }
}
