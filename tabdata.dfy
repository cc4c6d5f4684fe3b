/**
 * A tab: its id, config, sections, name and capo, edited in place, plus the
 * undo history the editor keeps in the browser's localStorage.
 *
 * localStorage holds two kinds of item for the editor: "save_info", a JSON
 * object giving each tab id its SaveInfo counters, and "save_<id>_<n>", the
 * serialised tab of save slot n.  Here the first is kept parsed and the
 * second as the tab's JSON value, keyed by (id, n): serialisation is taken to
 * be injective, so comparing serialised strings is comparing JSON values.
 */
module Tabs {
  import opened Wrappers
  import opened EditorConfig
  import opened Measures
  import opened Sections
  import opened Cursor

  /** The number of save slots per tab. */
  const MaxSaves: int := 20

  datatype TabJson = TabJson(id: string, config: ConfigJson, sections: seq<SectionJson>, name: string, capo: int)

  /** Every measure object held by the given sections. */
  ghost function MeasuresOfSections(ss: seq<SectionData>): set<MeasureData>
    reads ss
  {
    set s, m | s in ss && m in s.measures :: m
  }

  /** Every string object held by the given sections. */
  ghost function StringsOfSections(ss: seq<SectionData>): set<StringData>
    reads ss, MeasuresOfSections(ss)
  {
    set s, m, t | s in ss && m in s.measures && t in m.strings :: t
  }

  /** Every note object held by the given sections. */
  ghost function NotesOfSections(ss: seq<SectionData>): set<NoteData>
    reads ss, MeasuresOfSections(ss), StringsOfSections(ss)
  {
    set s, m, t, n | s in ss && m in s.measures && t in m.strings && n in t.notes :: n
  }

  /** The JSON of a run of sections, section by section. */
  function SectionsJson(ss: seq<SectionData>): (r: seq<SectionJson>)
    reads ss, MeasuresOfSections(ss), StringsOfSections(ss), NotesOfSections(ss)
    ensures |r| == |ss|
    ensures forall i {:trigger r[i]} :: 0 <= i < |ss| ==> r[i] == ss[i].ToJson()
  {
    if ss == [] then []
    else
      assert forall m :: m in ss[0].measures ==> m in MeasuresOfSections(ss);
      assert StringsOfMeasures(ss[0].measures) <= StringsOfSections(ss);
      assert NotesOfMeasures(ss[0].measures) <= NotesOfSections(ss);
      assert MeasuresOfSections(ss[1..]) <= MeasuresOfSections(ss);
      assert StringsOfSections(ss[1..]) <= StringsOfSections(ss);
      assert NotesOfSections(ss[1..]) <= NotesOfSections(ss);
      [ss[0].ToJson()] + SectionsJson(ss[1..])
  }

  /** The shapes of a run of measures. */
  function MeasureShapes(ms: seq<MeasureData>): (r: seq<MeasureShape>)
    reads ms
    ensures |r| == |ms|
    ensures forall i {:trigger r[i]} :: 0 <= i < |ms| ==> r[i] == MeasureShape(|ms[i].strings|, ms[i].beats)
  {
    if ms == [] then [] else [MeasureShape(|ms[0].strings|, ms[0].beats)] + MeasureShapes(ms[1..])
  }

  /** The shape of a run of sections, as the cursor sees it. */
  function SectionsLayout(ss: seq<SectionData>): (r: Layout)
    reads ss, MeasuresOfSections(ss)
    ensures |r| == |ss|
    ensures forall i {:trigger r[i]} :: 0 <= i < |ss| ==> r[i] == MeasureShapes(ss[i].measures)
  {
    if ss == [] then []
    else
      assert forall m :: m in ss[0].measures ==> m in MeasuresOfSections(ss);
      assert MeasuresOfSections(ss[1..]) <= MeasuresOfSections(ss);
      [MeasureShapes(ss[0].measures)] + SectionsLayout(ss[1..])
  }

  /** The shape of a tab, read off its JSON. */
  function JsonLayout(j: TabJson): (r: Layout)
    ensures |r| == |j.sections|
    ensures forall i :: 0 <= i < |r| ==> |r[i]| == |j.sections[i].measures|
    ensures forall i, k :: 0 <= i < |r| && 0 <= k < |r[i]| ==>
      r[i][k] == MeasureShape(|j.sections[i].measures[k].strings|, j.sections[i].measures[k].beats)
  {
    seq(|j.sections|, i requires 0 <= i < |j.sections| =>
      seq(|j.sections[i].measures|, k requires 0 <= k < |j.sections[i].measures| =>
        MeasureShape(|j.sections[i].measures[k].strings|, j.sections[i].measures[k].beats)))
  }

  /** Whether SectionData.default(c) throws. */
  predicate DefaultSectionThrows(c: Config)
  {
    Count(c.startMeasures) > 0 && DefaultMeasureMisfits(c, c.stringNames)
  }

  /** The tab default(id) makes: the default config and its startSections default sections. */
  function DefaultTabJson(id: string): (j: TabJson)
    ensures j.id == id && j.name == "New Tab" && j.capo == 0
    ensures j.config == EditorConfig.ToJson(EditorConfig.Default())
    ensures |j.sections| == Count(EditorConfig.Default().startSections)
    ensures forall i :: 0 <= i < |j.sections| ==> j.sections[i] == DefaultSectionJson(EditorConfig.Default())
  {
    var c := EditorConfig.Default();
    TabJson(id, EditorConfig.ToJson(c), seq(Count(c.startSections), _ => DefaultSectionJson(c)), "New Tab", 0)
  }

  /** A default tab is one the cursor can move around in, and the reset cursor is valid in it. */
  lemma DefaultTabIsWellFormed(id: string)
    ensures WellFormed(JsonLayout(DefaultTabJson(id)))
    ensures InRange(Position(0, 0, 0, 0), JsonLayout(DefaultTabJson(id)))
  {
    var c := EditorConfig.Default();
    var j := DefaultTabJson(id);
    var layout := JsonLayout(j);
    var m := DefaultMeasureJson(c);
    assert |layout| == 1 && |layout[0]| == 4;
    forall k | 0 <= k < |layout[0]|
      ensures layout[0][k] == MeasureShape(6, 4)
    {
      assert j.sections[0].measures[k] == m;
    }
  }

  class TabData {
    var config: Config
    var sections: seq<SectionData>
    var name: string
    var capo: int
    var id: string

    constructor (id: string, config: Config, sections: seq<SectionData>, name: string, capo: int)
      ensures this.id == id && this.config == config && this.sections == sections
      ensures this.name == name && this.capo == capo
    {
      this.config := config;
      this.sections := sections;
      this.name := name;
      this.capo := capo;
      this.id := id;
    }

    function ToJson(): (j: TabJson)
      reads this, sections, MeasuresOfSections(sections), StringsOfSections(sections), NotesOfSections(sections)
      ensures j.id == id && j.name == name && j.capo == capo && j.config == EditorConfig.ToJson(config)
      ensures |j.sections| == |sections|
    {
      TabJson(id, EditorConfig.ToJson(config), SectionsJson(sections), name, capo)
    }

    /** The tab's shape, which the cursor's commands read. */
    function Layout(): Layout
      reads this, sections, MeasuresOfSections(sections)
    {
      SectionsLayout(sections)
    }

    static method FromJson(j: TabJson) returns (t: TabData)
      ensures fresh(t) && t.ToJson() == j
      ensures forall s :: s in t.sections ==> fresh(s)
    {
      var sections := SectionsFromJson(j.sections);
      label BeforeNew:
      t := new TabData(j.id, EditorConfig.FromJson(j.config), sections, j.name, j.capo);
      SectionsJsonKept@BeforeNew(sections);
    }

    /** default(id): a new tab over the default config; its default sections never throw. */
    static method Default(id: string) returns (t: TabData)
      ensures fresh(t) && t.ToJson() == DefaultTabJson(id)
      ensures t.config == EditorConfig.Default()
    {
      var config := EditorConfig.Default();
      var sections: seq<SectionData> := [];
      while |sections| < Count(config.startSections)
        invariant |sections| <= Count(config.startSections)
        invariant forall k :: 0 <= k < |sections| ==> sections[k].ToJson() == DefaultSectionJson(config)
      {
        var r := SectionData.Default(config);
        sections := sections + [r.value];
      }
      label BeforeNew:
      t := new TabData(id, config, sections, "New Tab", 0);
      forall k | 0 <= k < |sections| ensures sections[k].ToJson() == DefaultSectionJson(config) {
        SectionJsonKept@BeforeNew(sections[k]);
      }
      assert SectionsJson(t.sections) == DefaultTabJson(id).sections;
    }

    /** setCapo(n): only the capo changes. */
    method SetCapo(n: int)
      modifies this
      ensures sections == old(sections)
      ensures ToJson() == old(ToJson()).(capo := n)
    {
      capo := n;
      SectionsJsonKept(sections);
    }

    /**
     * The loop of setSections: append new default sections of `c` until there
     * are `k`.  SectionData.default either always throws for `c` or never
     * does, so a throw can only come before anything was appended.
     */
    method PadWithDefaults(k: int, c: Config) returns (thrown: bool)
      modifies this
      ensures thrown <==> |old(sections)| < k && DefaultSectionThrows(c)
      ensures |old(sections)| <= |sections| && sections[..|old(sections)|] == old(sections)
      ensures thrown || |old(sections)| >= k ==> sections == old(sections)
      ensures !thrown && |old(sections)| < k ==> |sections| == k
      ensures forall i :: |old(sections)| <= i < |sections| ==> fresh(sections[i]) && sections[i].ToJson() == DefaultSectionJson(c)
      ensures config == old(config) && name == old(name) && capo == old(capo) && id == old(id)
    {
      var ss := sections;
      thrown := false;
      while |ss| < k
        invariant unchanged(this)
        invariant |old(sections)| <= |ss| && ss[..|old(sections)|] == old(sections)
        invariant |ss| <= k || ss == old(sections)
        invariant forall i :: |old(sections)| <= i < |ss| ==> fresh(ss[i]) && ss[i].ToJson() == DefaultSectionJson(c)
        invariant DefaultSectionThrows(c) ==> ss == old(sections)
      {
        label BeforeAlloc:
        var r := SectionData.Default(c);
        if r.None? {
          assert ss == old(sections);
          return true;
        }
        forall i | |old(sections)| <= i < |ss| ensures ss[i].ToJson() == DefaultSectionJson(c) {
          SectionJsonKept@BeforeAlloc(ss[i]);
        }
        ss := ss + [r.value];
      }
      label BeforeCommit:
      sections := ss;
      forall i | |old(sections)| <= i < |ss| ensures ss[i].ToJson() == DefaultSectionJson(c) {
        SectionJsonKept@BeforeCommit(ss[i]);
      }
    }

    /**
     * setSections(k, config): at least one section.  Shrinking asks for
     * confirmation first (`confirmed` is the user's answer) and changes
     * nothing when it is declined; otherwise the list is cut to k, keeping
     * the sections it had up to there, then padded with new default sections
     * of `config`, which throws if a default section does.
     */
    method SetSections(numSections: int, config: Config, confirmed: bool) returns (thrown: bool)
      modifies this
      ensures var k := if numSections <= 0 then 1 else numSections;
        var declined := k < |old(sections)| && !confirmed;
        var kept := if |old(sections)| < k then |old(sections)| else k;
        && (declined ==> sections == old(sections) && !thrown)
        && (!declined ==>
          && kept <= |sections|
          && sections[..kept] == old(sections)[..kept]
          && (thrown <==> |old(sections)| < k && DefaultSectionThrows(config))
          && (thrown ==> sections == old(sections))
          && (!thrown ==> |sections| == k)
          && (forall i :: kept <= i < |sections| ==> fresh(sections[i]) && sections[i].ToJson() == DefaultSectionJson(config)))
      ensures this.config == old(this.config) && name == old(name) && capo == old(capo) && id == old(id)
    {
      var k := numSections;
      if k <= 0 {
        k := 1;
      }
      if k < |sections| && !confirmed {
        return false;
      }
      if k < |sections| {
        sections := sections[..k];
      }
      thrown := PadWithDefaults(k, config);
    }

    /**
     * save(): store the tab in the next undo slot, unless it equals the save
     * the counters point at; see `SaveOutcome`.
     */
    method Save(storage: LocalStorage) returns (saved: bool)
      modifies storage
      ensures SaveResult(saved, storage.State()) == SaveOutcome(old(storage.State()), id, ToJson())
    {
      var serialized := ToJson();
      var saveInfo: map<string, SaveInfo> := if storage.saveInfo.Some? then storage.saveInfo.value else map[];
      ghost var parsed := saveInfo;
      if id !in saveInfo {
        saveInfo := saveInfo[id := SaveInfo(0, 0)];
      }
      var thisSaveInfo := saveInfo[id];
      var previous := (id, thisSaveInfo.currentSave - 1);
      if previous in storage.saves && storage.saves[previous] == serialized {
        saved := false;
      } else {
        if previous !in storage.saves {
          thisSaveInfo := thisSaveInfo.(numSaves := 0);
        }
        storage.saves := storage.saves[(id, Wrap(thisSaveInfo.currentSave, MaxSaves)) := serialized];
        if thisSaveInfo.currentSave < thisSaveInfo.numSaves {
          thisSaveInfo := thisSaveInfo.(numSaves := thisSaveInfo.currentSave);
        }
        thisSaveInfo := thisSaveInfo.(numSaves := thisSaveInfo.numSaves + 1);
        thisSaveInfo := thisSaveInfo.(currentSave := thisSaveInfo.numSaves);
        assert saveInfo[id := thisSaveInfo] == parsed[id := thisSaveInfo];
        storage.saveInfo := Some(saveInfo[id := thisSaveInfo]);
        saved := true;
      }
      SectionsJsonKept(sections);
    }

    /**
     * undo(): step the counters back by one, when `UndoOutcome` allows it, and
     * return the tab loaded from the slot they then point before; this tab
     * itself when undo is refused or that slot is empty.
     */
    method Undo(storage: LocalStorage) returns (t: TabData)
      modifies storage
      ensures var u := UndoOutcome(old(storage.State()), id);
        && (u.None? ==> t == this && storage.State() == old(storage.State()))
        && (u.Some? ==> storage.State() == u.value)
        && (u.Some? ==>
          var loaded := LoadSlot(u.value, Some(InfoFor(u.value, id).currentSave - 1), id);
          && (loaded.None? ==> t == this)
          && (loaded.Some? ==> fresh(t) && t.ToJson() == loaded.value))
    {
      if storage.saveInfo.None? {
        return this;
      }
      var parsedSaveInfo := storage.saveInfo.value;
      if id !in parsedSaveInfo {
        return this;
      }
      var thisSaveInfo := parsedSaveInfo[id];
      if thisSaveInfo.currentSave - 2 < thisSaveInfo.numSaves - MaxSaves || thisSaveInfo.currentSave - 2 <= 0 {
        return this;
      }
      thisSaveInfo := thisSaveInfo.(currentSave := thisSaveInfo.currentSave - 1);
      storage.saveInfo := Some(parsedSaveInfo[id := thisSaveInfo]);
      var r := Load(Some(thisSaveInfo.currentSave - 1), id, storage);
      if r.Some? {
        t := r.value;
      } else {
        t := this;
      }
    }

    /**
     * load(index, id): the tab in slot `index`, or, with no index, in the slot
     * the counters point at; None when there is none.  See `LoadSlot`.
     */
    static method Load(index: Option<int>, id: string, storage: LocalStorage) returns (r: Option<TabData>)
      ensures var j := LoadSlot(storage.State(), index, id);
        && (r.None? <==> j.None?)
        && (r.Some? ==> fresh(r.value) && r.value.ToJson() == j.value)
    {
      var i: int;
      if index.None? {
        if storage.saveInfo.None? {
          return None;
        }
        var parsedSaveInfo := storage.saveInfo.value;
        if id !in parsedSaveInfo {
          return None;
        }
        var currentSave := parsedSaveInfo[id].currentSave;
        if currentSave == 0 {
          return None;
        }
        i := Wrap(currentSave - 1, MaxSaves);
      } else {
        i := index.value;
      }
      if (id, i) !in storage.saves {
        return None;
      }
      var t := FromJson(storage.saves[(id, i)]);
      r := Some(t);
    }

    /** loadOrDefault(id): the saved tab the counters point at, else a new default tab. */
    static method LoadOrDefault(id: string, storage: LocalStorage) returns (t: TabData)
      ensures var j := LoadSlot(storage.State(), None, id);
        fresh(t) && t.ToJson() == if j.Some? then j.value else DefaultTabJson(id)
    {
      var res := Load(None, id, storage);
      if res.None? {
        t := Default(id);
      } else {
        t := res.value;
      }
    }
  }

  /** Builds fresh sections, one per JSON entry, in order. */
  method SectionsFromJson(js: seq<SectionJson>) returns (sections: seq<SectionData>)
    ensures SectionsJson(sections) == js
    ensures forall s :: s in sections ==> fresh(s)
  {
    sections := [];
    while |sections| < |js|
      invariant |sections| <= |js|
      invariant forall k :: 0 <= k < |sections| ==> fresh(sections[k])
      invariant forall k :: 0 <= k < |sections| ==> sections[k].ToJson() == js[k]
    {
      label BeforeAlloc:
      var s := SectionData.FromJson(js[|sections|]);
      forall k | 0 <= k < |sections| ensures sections[k].ToJson() == js[k] {
        SectionJsonKept@BeforeAlloc(sections[k]);
      }
      sections := sections + [s];
    }
  }

  /** The JSON of a run of sections depends on the sections and the objects under them only. */
  twostate lemma SectionsJsonKept(ss: seq<SectionData>)
    requires unchanged(ss) && unchanged(MeasuresOfSections(ss))
    requires unchanged(StringsOfSections(ss)) && unchanged(NotesOfSections(ss))
    ensures SectionsJson(ss) == old(SectionsJson(ss))
  {
  }

  /** The cursor's view of a tab is the shape of its JSON. */
  lemma LayoutMatchesJson(t: TabData)
    ensures t.Layout() == JsonLayout(t.ToJson())
  {
    var layout := t.Layout();
    var j := t.ToJson();
    forall i | 0 <= i < |layout|
      ensures layout[i] == JsonLayout(j)[i]
    {
      var ms := t.sections[i].measures;
      assert j.sections[i] == t.sections[i].ToJson();
      forall k | 0 <= k < |ms|
        ensures layout[i][k] == JsonLayout(j)[i][k]
      {
        assert j.sections[i].measures[k] == ms[k].ToJson();
      }
    }
  }

  datatype SaveInfo = SaveInfo(numSaves: int, currentSave: int)

  /** What the editor keeps in localStorage: the parsed "save_info" item (None when absent) and the save slots. */
  datatype Storage = Storage(saveInfo: Option<map<string, SaveInfo>>, saves: map<(string, int), TabJson>)

  class LocalStorage {
    var saveInfo: Option<map<string, SaveInfo>>
    var saves: map<(string, int), TabJson>

    constructor ()
      ensures State() == Storage(None, map[])
    {
      saveInfo := None;
      saves := map[];
    }

    function State(): Storage
      reads this
    {
      Storage(saveInfo, saves)
    }
  }

  /** The counters of a tab, or the zero counters save() starts a new tab with. */
  function InfoFor(st: Storage, id: string): SaveInfo
  {
    if st.saveInfo.Some? && id in st.saveInfo.value then st.saveInfo.value[id] else SaveInfo(0, 0)
  }

  datatype SaveResult = SaveResult(saved: bool, storage: Storage)

  /**
   * save() as written: the previous save is looked up in slot currentSave - 1
   * as it stands, but the new one is written to slot wrap(currentSave, 20).
   * An unchanged tab is not written.  A missing previous save restarts the
   * count; otherwise history past currentSave (undone saves) is dropped.
   */
  function SaveOutcome(st: Storage, id: string, json: TabJson): (r: SaveResult)
    ensures var cur := InfoFor(st, id); var previous := (id, cur.currentSave - 1);
      !r.saved <==> previous in st.saves && st.saves[previous] == json
    ensures !r.saved ==> r.storage == st
    ensures r.saved ==> InfoFor(r.storage, id).currentSave == InfoFor(r.storage, id).numSaves
    ensures r.saved ==> forall other :: other != id ==> InfoFor(r.storage, other) == InfoFor(st, other)
    ensures r.saved ==> r.storage.saves == st.saves[(id, Wrap(InfoFor(st, id).currentSave, MaxSaves)) := json]
  {
    var info := if st.saveInfo.Some? then st.saveInfo.value else map[];
    var cur := InfoFor(st, id);
    var previous := (id, cur.currentSave - 1);
    if previous in st.saves && st.saves[previous] == json then SaveResult(false, st)
    else
      var numSaves := if previous in st.saves then cur.numSaves else 0;
      var next := (if cur.currentSave < numSaves then cur.currentSave else numSaves) + 1;
      SaveResult(true, Storage(Some(info[id := SaveInfo(next, next)]), st.saves[(id, Wrap(cur.currentSave, MaxSaves)) := json]))
  }

  /** After a save that follows the previous one, the count is one past where the cursor was: redo history is gone. */
  lemma SaveDiscardsRedo(st: Storage, id: string, json: TabJson)
    requires var cur := InfoFor(st, id); 0 <= cur.currentSave <= cur.numSaves && (id, cur.currentSave - 1) in st.saves
    ensures var r := SaveOutcome(st, id, json);
      r.saved ==> InfoFor(r.storage, id) == SaveInfo(InfoFor(st, id).currentSave + 1, InfoFor(st, id).currentSave + 1)
  {
  }

  /** Every slot of `id` is one of the 20. */
  ghost predicate SlotsInRing(st: Storage, id: string)
  {
    forall k :: (id, k) in st.saves ==> 0 <= k < MaxSaves
  }

  /** save() only ever writes slots 0 to 19. */
  lemma SaveStaysInRing(st: Storage, id: string, json: TabJson)
    requires SlotsInRing(st, id)
    ensures SlotsInRing(SaveOutcome(st, id, json).storage, id)
  {
  }

  /**
   * As written, the count never passes 21: a previous save is only found
   * while currentSave - 1 is a slot, 0 to 19.
   */
  lemma SaveCountCapped(st: Storage, id: string, json: TabJson)
    requires SlotsInRing(st, id)
    requires InfoFor(st, id).currentSave <= InfoFor(st, id).numSaves
    ensures var r := SaveOutcome(st, id, json); r.saved ==> InfoFor(r.storage, id).numSaves <= MaxSaves + 1
  {
  }

  /**
   * load() with no index, as written: the slot wrap(currentSave - 1, 20),
   * or an explicit slot; None when there is no entry or currentSave is 0.
   */
  function LoadSlot(st: Storage, index: Option<int>, id: string): (r: Option<TabJson>)
    ensures index.Some? ==> (r.Some? <==> (id, index.value) in st.saves)
    ensures index.None? && (st.saveInfo.None? || id !in st.saveInfo.value) ==> r.None?
    ensures index.None? && r.Some? ==> var slot := (id, Wrap(InfoFor(st, id).currentSave - 1, MaxSaves));
      slot in st.saves && r.value == st.saves[slot]
  {
    if index.None? && (st.saveInfo.None? || id !in st.saveInfo.value || st.saveInfo.value[id].currentSave == 0) then None
    else
      var i := if index.Some? then index.value else Wrap(st.saveInfo.value[id].currentSave - 1, MaxSaves);
      if (id, i) in st.saves then Some(st.saves[(id, i)]) else None
  }

  /**
   * For the first twenty saves, load() finds what save() just stored, or the
   * equal tab it declined to store again.
   */
  lemma LoadAfterSave(st: Storage, id: string, json: TabJson)
    requires SlotsInRing(st, id)
    requires var cur := InfoFor(st, id); 0 <= cur.currentSave <= cur.numSaves && cur.currentSave <= MaxSaves
    requires var cur := InfoFor(st, id); cur.currentSave == 0 || (id, cur.currentSave - 1) in st.saves
    ensures LoadSlot(SaveOutcome(st, id, json).storage, None, id) == Some(json)
  {
  }

  /**
   * undo() as written: refused (None) with no counters for the tab, or when
   * currentSave - 2 is not above 0 or falls more than 20 saves behind
   * numSaves; otherwise currentSave goes back by one and nothing else changes.
   */
  function UndoOutcome(st: Storage, id: string): (r: Option<Storage>)
    ensures r.None? <==>
      || st.saveInfo.None? || id !in st.saveInfo.value
      || InfoFor(st, id).currentSave - 2 <= 0
      || InfoFor(st, id).currentSave - 2 < InfoFor(st, id).numSaves - MaxSaves
    ensures r.Some? ==> r.value.saves == st.saves
    ensures r.Some? ==> InfoFor(r.value, id) == InfoFor(st, id).(currentSave := InfoFor(st, id).currentSave - 1)
    ensures r.Some? ==> forall other :: other != id ==> InfoFor(r.value, other) == InfoFor(st, other)
  {
    if st.saveInfo.None? || id !in st.saveInfo.value then None
    else
      var cur := st.saveInfo.value[id];
      if cur.currentSave - 2 < cur.numSaves - MaxSaves || cur.currentSave - 2 <= 0 then None
      else Some(st.(saveInfo := Some(st.saveInfo.value[id := cur.(currentSave := cur.currentSave - 1)])))
  }

  /** The slot undo() loads lies within the last 20 saves and is never slot 0. */
  lemma UndoStaysInWindow(st: Storage, id: string)
    ensures var r := UndoOutcome(st, id);
      r.Some? ==> var loaded := InfoFor(r.value, id).currentSave - 1;
        1 <= loaded && InfoFor(st, id).numSaves - MaxSaves <= loaded
  {
  }

  /**
   * The discrepancy: the 21st save writes slot wrap(20, 20) = 0, but the next
   * save looks for slot 20, which is never written.  So saving the same tab
   * again is not recognised as a no-op, the count restarts at 1, and undo is
   * then refused.
   */
  lemma HistoryResetsAfterTwentyOneSaves(id: string, other: TabJson, json: TabJson)
    requires other != json
    ensures var st := Storage(Some(map[id := SaveInfo(20, 20)]), map[(id, 19) := other]);
      var first := SaveOutcome(st, id, json);
      var second := SaveOutcome(first.storage, id, json);
      && first.saved && InfoFor(first.storage, id) == SaveInfo(21, 21)
      && second.saved && InfoFor(second.storage, id) == SaveInfo(1, 1)
      && UndoOutcome(second.storage, id).None?
  {
    var st := Storage(Some(map[id := SaveInfo(20, 20)]), map[(id, 19) := other]);
    var first := SaveOutcome(st, id, json);
    assert (id, 20) !in first.storage.saves;
  }

  /** The slot a save counter maps to in a ring of 20. */
  function RingSlot(n: int): (r: int)
    ensures 0 <= r < MaxSaves
    ensures 0 <= n < MaxSaves ==> r == n
  {
    n % MaxSaves
  }

  /**
   * save() as evidently intended: the previous save and the new one both
   * live in slot (counter - 1) mod 20, the counter being currentSave before
   * the save and the new currentSave after it.
   */
  function RingSaveOutcome(st: Storage, id: string, json: TabJson): (r: SaveResult)
    ensures r.saved ==> InfoFor(r.storage, id).currentSave == InfoFor(r.storage, id).numSaves
  {
    var info := if st.saveInfo.Some? then st.saveInfo.value else map[];
    var cur := InfoFor(st, id);
    var previous := (id, RingSlot(cur.currentSave - 1));
    var found := cur.currentSave > 0 && previous in st.saves;
    if found && st.saves[previous] == json then SaveResult(false, st)
    else
      var numSaves := if found then cur.numSaves else 0;
      var next := (if cur.currentSave < numSaves then cur.currentSave else numSaves) + 1;
      SaveResult(true, Storage(Some(info[id := SaveInfo(next, next)]), st.saves[(id, RingSlot(next - 1)) := json]))
  }

  /** load() with no index, reading the same ring slot. */
  function RingLoadSlot(st: Storage, id: string): (r: Option<TabJson>)
    ensures r.Some? ==> InfoFor(st, id).currentSave > 0 && (id, RingSlot(InfoFor(st, id).currentSave - 1)) in st.saves
  {
    var cur := InfoFor(st, id);
    if cur.currentSave > 0 && (id, RingSlot(cur.currentSave - 1)) in st.saves then
      Some(st.saves[(id, RingSlot(cur.currentSave - 1))])
    else None
  }

  /** With the ring, load() always finds what save() stored, however many saves came before. */
  lemma RingLoadAfterSave(st: Storage, id: string, json: TabJson)
    requires 0 <= InfoFor(st, id).currentSave <= InfoFor(st, id).numSaves
    ensures RingLoadSlot(RingSaveOutcome(st, id, json).storage, id) == Some(json)
  {
  }

  /** With the ring, saving an unchanged tab a second time writes nothing. */
  lemma RingSaveUnchanged(st: Storage, id: string, json: TabJson)
    requires 0 <= InfoFor(st, id).currentSave <= InfoFor(st, id).numSaves
    ensures var first := RingSaveOutcome(st, id, json);
      !RingSaveOutcome(first.storage, id, json).saved
  {
  }

  /** With the ring, each new save after the latest one adds one to the count, without bound. */
  lemma RingCountGrows(st: Storage, id: string, json: TabJson)
    requires var cur := InfoFor(st, id); 0 < cur.currentSave == cur.numSaves
    requires (id, RingSlot(InfoFor(st, id).currentSave - 1)) in st.saves
    ensures var r := RingSaveOutcome(st, id, json);
      r.saved ==> InfoFor(r.storage, id).numSaves == InfoFor(st, id).numSaves + 1
  {
  }
}
