/**
 * The editor's cursor: which section, measure, string and beat is selected.
 * Its four indices are fields that every command updates in place.  The
 * commands read the tab only for its shape -- how many sections, how many
 * measures in each, and each measure's string count and beats -- so they take
 * that shape (`TabData.Layout()`) instead of the tab.
 */
module Cursor {

  /**
   * wrap(v, m): one step past either end of [0, m) comes back at the other
   * end.  It is not a modulo: anything above m - 1 becomes 0 and anything
   * below 0 becomes m - 1.
   */
  function Wrap(value: int, modulus: int): (r: int)
    ensures 1 <= modulus && -1 <= value <= modulus ==> 0 <= r < modulus && r == value % modulus
    ensures 0 <= value < modulus ==> r == value
  {
    if value < 0 then modulus - 1
    else if value > modulus - 1 then 0
    else value
  }

  /** Further than one step out, wrap saturates instead of reducing: wrap(25, 20) is 0, not 5. */
  lemma WrapSaturates(value: int, modulus: int)
    requires 1 <= modulus
    ensures value >= modulus ==> Wrap(value, modulus) == 0
    ensures value < 0 ==> Wrap(value, modulus) == modulus - 1
    ensures Wrap(25, 20) == 0 && 25 % 20 == 5
  {
  }

  /** prevSection's step: one back, from 0 (or below) to the last of n. */
  function PrevIndex(i: int, n: int): (r: int)
    ensures 0 <= i < n ==> 0 <= r < n && r == (i - 1) % n
  {
    if i - 1 < 0 then n - 1 else i - 1
  }

  /** nextSection's step: one on, from the last of n (or beyond) to 0. */
  function NextIndex(i: int, n: int): (r: int)
    ensures 0 <= i < n ==> 0 <= r < n && r == (i + 1) % n
  {
    if i + 1 > n - 1 then 0 else i + 1
  }

  /** On an index in range, prevSection and nextSection undo each other. */
  lemma IndexStepsInverse(i: int, n: int)
    requires 0 <= i < n
    ensures PrevIndex(NextIndex(i, n), n) == i
    ensures NextIndex(PrevIndex(i, n), n) == i
  {
  }

  /** What the cursor needs to know about one measure. */
  datatype MeasureShape = MeasureShape(strings: int, beats: int)

  /** Per section, the shapes of its measures. */
  type Layout = seq<seq<MeasureShape>>

  datatype Position = Position(section: int, measure: int, str: int, beat: int)

  datatype Direction = Up | Down | Left | Right

  predicate HasMeasure(layout: Layout, section: int, measure: int)
  {
    0 <= section < |layout| && 0 <= measure < |layout[section]|
  }

  /**
   * A tab the cursor can move around in freely: at least one section, every
   * section with at least one measure, every measure with the same positive
   * string count and at least one beat.
   */
  predicate WellFormed(layout: Layout)
  {
    && |layout| >= 1
    && (forall s :: 0 <= s < |layout| ==> |layout[s]| >= 1)
    && (forall s, m :: 0 <= s < |layout| && 0 <= m < |layout[s]| ==> layout[s][m].strings == layout[0][0].strings)
    && layout[0][0].strings >= 1
    && (forall s, m :: 0 <= s < |layout| && 0 <= m < |layout[s]| ==> layout[s][m].beats >= 1)
  }

  /** Every index names something that exists. */
  predicate InRange(p: Position, layout: Layout)
  {
    && HasMeasure(layout, p.section, p.measure)
    && 0 <= p.str < layout[p.section][p.measure].strings
    && 0 <= p.beat < layout[p.section][p.measure].beats
  }

  /** prevMeasure reads the previous section only when it leaves measure 0. */
  predicate PrevMeasureDefined(p: Position, layout: Layout)
  {
    p.measure - 1 < 0 ==> 0 <= PrevIndex(p.section, |layout|) < |layout|
  }

  /** prevMeasure: one measure back, or onto the last measure of the previous section. */
  function PrevMeasureOf(p: Position, layout: Layout): Position
    requires PrevMeasureDefined(p, layout)
  {
    if p.measure - 1 < 0 then
      var s := PrevIndex(p.section, |layout|);
      p.(section := s, measure := |layout[s]| - 1)
    else p.(measure := p.measure - 1)
  }

  /** nextMeasure: one measure on, or onto measure 0 of the next section. */
  function NextMeasureOf(p: Position, layout: Layout): Position
    requires 0 <= p.section < |layout|
  {
    if p.measure + 1 > |layout[p.section]| - 1 then
      p.(section := NextIndex(p.section, |layout|), measure := 0)
    else p.(measure := p.measure + 1)
  }

  /** Every measure move reads exists. */
  predicate CanMove(p: Position, d: Direction, layout: Layout)
  {
    match d
    case Up => HasMeasure(layout, p.section, p.measure)
    case Down => HasMeasure(layout, p.section, p.measure)
    case Left =>
      p.beat - 1 < 0 ==>
        && PrevMeasureDefined(p, layout)
        && var q := PrevMeasureOf(p, layout); HasMeasure(layout, q.section, q.measure)
    case Right => HasMeasure(layout, p.section, p.measure)
  }

  /**
   * move(d): up and down step the string, wrapping over the current measure's
   * string count; left and right step the beat, crossing into the previous
   * measure (at its last beat) or the next one (at beat 0) at a boundary.
   */
  function Moved(p: Position, d: Direction, layout: Layout): Position
    requires CanMove(p, d, layout)
  {
    match d
    case Up => p.(str := Wrap(p.str - 1, layout[p.section][p.measure].strings))
    case Down => p.(str := Wrap(p.str + 1, layout[p.section][p.measure].strings))
    case Left =>
      if p.beat - 1 < 0 then
        var q := PrevMeasureOf(p, layout);
        q.(beat := layout[q.section][q.measure].beats - 1)
      else p.(beat := p.beat - 1)
    case Right =>
      if p.beat + 1 > layout[p.section][p.measure].beats - 1 then
        NextMeasureOf(p, layout).(beat := 0)
      else p.(beat := p.beat + 1)
  }

  /** In a well-formed tab, measure steps keep the section and measure valid. */
  lemma MeasureStepsStayInTab(p: Position, layout: Layout)
    requires WellFormed(layout) && HasMeasure(layout, p.section, p.measure)
    ensures PrevMeasureDefined(p, layout)
    ensures var q := PrevMeasureOf(p, layout); HasMeasure(layout, q.section, q.measure)
    ensures var q := NextMeasureOf(p, layout); HasMeasure(layout, q.section, q.measure)
  {
  }

  /**
   * In a well-formed tab, nextMeasure and prevMeasure undo each other,
   * including across a section boundary and from the last section to the first.
   */
  lemma MeasureStepsInverse(p: Position, layout: Layout)
    requires WellFormed(layout) && HasMeasure(layout, p.section, p.measure)
    ensures PrevMeasureOf(NextMeasureOf(p, layout), layout) == p
    ensures NextMeasureOf(PrevMeasureOf(p, layout), layout) == p
  {
    MeasureStepsStayInTab(p, layout);
    IndexStepsInverse(p.section, |layout|);
  }

  /** In a well-formed tab, every move from a valid position can be made and lands on a valid position. */
  lemma MoveKeepsInRange(p: Position, d: Direction, layout: Layout)
    requires WellFormed(layout) && InRange(p, layout)
    ensures CanMove(p, d, layout)
    ensures InRange(Moved(p, d, layout), layout)
  {
    MeasureStepsStayInTab(p, layout);
  }

  /** Up then down, or down then up, comes back to the same string; left and right undo each other likewise. */
  lemma MovesInverse(p: Position, layout: Layout)
    requires WellFormed(layout) && InRange(p, layout)
    ensures Moved(Moved(p, Up, layout), Down, layout) == p
    ensures Moved(Moved(p, Down, layout), Up, layout) == p
    ensures Moved(Moved(p, Right, layout), Left, layout) == p
    ensures Moved(Moved(p, Left, layout), Right, layout) == p
  {
    MoveKeepsInRange(p, Up, layout);
    MoveKeepsInRange(p, Down, layout);
    MoveKeepsInRange(p, Left, layout);
    MoveKeepsInRange(p, Right, layout);
    MeasureStepsInverse(p, layout);
  }

  class Selection {
    var selectedSection: int
    var selectedMeasure: int
    var selectedString: int
    var selectedBeat: int

    /** The new cursor is reset. */
    constructor ()
      ensures Pos() == Position(0, 0, 0, 0)
    {
      selectedSection := 0;
      selectedMeasure := 0;
      selectedString := 0;
      selectedBeat := 0;
    }

    function Pos(): Position
      reads this
    {
      Position(selectedSection, selectedMeasure, selectedString, selectedBeat)
    }

    /** reset: back to the first beat of the first string of the first measure of the first section. */
    method Reset()
      modifies this
      ensures Pos() == Position(0, 0, 0, 0)
    {
      selectedSection := 0;
      selectedString := 0;
      selectedMeasure := 0;
      selectedBeat := 0;
    }

    /** firstMeasure: measure 0 of the current section. */
    method FirstMeasure()
      modifies this
      ensures Pos() == old(Pos()).(measure := 0)
    {
      selectedMeasure := 0;
    }

    /** lastMeasure: the last measure of the current section. */
    method LastMeasure(layout: Layout)
      requires 0 <= selectedSection < |layout|
      modifies this
      ensures Pos() == old(Pos()).(measure := |layout[old(selectedSection)]| - 1)
    {
      selectedMeasure := |layout[selectedSection]| - 1;
    }

    method PrevSection(layout: Layout)
      modifies this
      ensures Pos() == old(Pos()).(section := PrevIndex(old(selectedSection), |layout|))
    {
      selectedSection := selectedSection - 1;
      if selectedSection < 0 {
        selectedSection := |layout| - 1;
      }
    }

    method NextSection(layout: Layout)
      modifies this
      ensures Pos() == old(Pos()).(section := NextIndex(old(selectedSection), |layout|))
    {
      selectedSection := selectedSection + 1;
      if selectedSection > |layout| - 1 {
        selectedSection := 0;
      }
    }

    method PrevMeasure(layout: Layout)
      requires PrevMeasureDefined(Pos(), layout)
      modifies this
      ensures Pos() == PrevMeasureOf(old(Pos()), layout)
    {
      selectedMeasure := selectedMeasure - 1;
      if selectedMeasure < 0 {
        PrevSection(layout);
        selectedMeasure := |layout[selectedSection]| - 1;
      }
    }

    method NextMeasure(layout: Layout)
      requires 0 <= selectedSection < |layout|
      modifies this
      ensures Pos() == NextMeasureOf(old(Pos()), layout)
    {
      selectedMeasure := selectedMeasure + 1;
      if selectedMeasure > |layout[selectedSection]| - 1 {
        NextSection(layout);
        selectedMeasure := 0;
      }
    }

    /** move(d): see `Moved`; with `MoveKeepsInRange`, a valid cursor in a well-formed tab stays valid. */
    method Move(d: Direction, layout: Layout)
      requires CanMove(Pos(), d, layout)
      modifies this
      ensures Pos() == Moved(old(Pos()), d, layout)
    {
      match d
      case Up =>
        selectedString := selectedString - 1;
        selectedString := Wrap(selectedString, layout[selectedSection][selectedMeasure].strings);
      case Down =>
        selectedString := selectedString + 1;
        selectedString := Wrap(selectedString, layout[selectedSection][selectedMeasure].strings);
      case Left =>
        selectedBeat := selectedBeat - 1;
        if selectedBeat < 0 {
          PrevMeasure(layout);
          selectedBeat := layout[selectedSection][selectedMeasure].beats - 1;
        }
      case Right =>
        selectedBeat := selectedBeat + 1;
        if selectedBeat > layout[selectedSection][selectedMeasure].beats - 1 {
          NextMeasure(layout);
          selectedBeat := 0;
        }
    }
  }
}
