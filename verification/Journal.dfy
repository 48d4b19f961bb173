/** Journal events and what they mean: a four-field ledger every index state refines. */
module Journal {
  import opened Bytes
  import opened Utf8
  import opened Names
  import opened Table

  /** A name the index can store at all. */
  predicate Usable(uni: Unicode, raw: string) {
    var name := StoredName(uni, raw);
    name != [] && FoldedRecord(uni, name) != [] && NoControl(FoldedRecord(uni, name))
  }

  /** Both arenas have 32-bit offsets to spare for one more record, with its fence and perhaps the opening one. */
  predicate HasRoom(uni: Unicode, nameBytes: nat, foldedBytes: nat, raw: string) {
    var name := StoredName(uni, raw);
    && nameBytes + |Encode(name)| <= U32_MAX
    && foldedBytes + |FoldedRecord(uni, name)| + (1 + if foldedBytes == 0 then 1 else 0) <= U32_MAX
  }

  /** One decoded journal event. */
  datatype Event =
    | Create(frn: nat, parent: nat, name: string, flags: Flags)
    | Delete(frn: nat)
    | Rename(frn: nat, newParent: nat, newName: string)
    | SecurityChange(frn: nat)

  /** All an event can observe of an index: the files, the arena lengths and the slots ever opened. */
  datatype Ledger = Ledger(files: map<nat, File>, nameBytes: nat, foldedBytes: nat, slots: nat)

  /** The arenas after one more name. */
  function Grown(uni: Unicode, l: Ledger, raw: string): Ledger {
    var name := StoredName(uni, raw);
    l.(nameBytes := l.nameBytes + |Encode(name)|,
       foldedBytes := l.foldedBytes + |FoldedRecord(uni, name)| + (1 + if l.foldedBytes == 0 then 1 else 0))
  }

  /** What an event does: unusable names, a full arena and a full table drop a create or rename whole. */
  function Step(uni: Unicode, l: Ledger, ev: Event): Ledger {
    match ev
    case Create(frn, parent, name, flags) =>
      var reuse := frn in l.files || |l.files| < l.slots;
      if Usable(uni, name) && HasRoom(uni, l.nameBytes, l.foldedBytes, name) && (reuse || l.slots < U32_MAX) then
        Grown(uni, l, name).(files := l.files[frn := File(parent, StoredName(uni, name), flags.(dead := false))],
                             slots := if reuse then l.slots else l.slots + 1)
      else l
    case Delete(frn) => l.(files := l.files - {frn})
    case Rename(frn, newParent, newName) =>
      if frn in l.files && Usable(uni, newName) && HasRoom(uni, l.nameBytes, l.foldedBytes, newName) then
        var file := File(newParent, StoredName(uni, newName), l.files[frn].flags.(dead := false));
        Grown(uni, l, newName).(files := l.files[frn := file])
      else l
    case SecurityChange(_) => l
  }

  function Run(uni: Unicode, l: Ledger, evs: seq<Event>): Ledger {
    if evs == [] then l else Step(uni, Run(uni, l, evs[..|evs| - 1]), evs[|evs| - 1])
  }

  lemma RunSnoc(uni: Unicode, l: Ledger, evs: seq<Event>, ev: Event)
    ensures Run(uni, l, evs + [ev]) == Step(uni, Run(uni, l, evs), ev)
  {
    assert (evs + [ev])[..|evs|] == evs;
  }

  lemma SecurityStep(uni: Unicode, l: Ledger, ev: Event)
    requires ev.SecurityChange?
    ensures Step(uni, l, ev) == l
  {
  }

  // ---- what is refused -------------------------------------------------------------------------

  /** A name can be stored exactly when something is left of it, and something of its fold, and no folded character is
      a control character. */
  lemma UsableIs(uni: Unicode, raw: string)
    ensures var name := StoredName(uni, raw);
            var folded := Truncate(Fold(uni, name), 65535);
            Usable(uni, raw) <==> name != "" && folded != "" && forall i :: 0 <= i < |folded| ==> folded[i] >= ' '
  {
    hide StoredName, Fold, Truncate;
    var folded := Truncate(Fold(uni, StoredName(uni, raw)), NAME_MAX);
    ControlFree(folded);
    if folded == "" {
      assert Encode(folded) == [];
    }
  }

  /** A storable name is dropped only when an arena would outgrow 32-bit offsets or a new slot 32-bit numbers. */
  lemma DroppedOnlyWhenFull(uni: Unicode, l: Ledger, ev: Event)
    requires ev.Create? && Usable(uni, ev.name)
    ensures var name := StoredName(uni, ev.name);
            Step(uni, l, ev) == l <==>
              || l.nameBytes + |Encode(name)| > 4294967295
              || l.foldedBytes + |FoldedRecord(uni, name)| + (if l.foldedBytes == 0 then 2 else 1) > 4294967295
              || (ev.frn !in l.files && l.slots <= |l.files| && l.slots >= 4294967295)
  {
    hide StoredName, FoldedRecord, Encode;
    assert Grown(uni, l, ev.name).foldedBytes > l.foldedBytes;
  }

  // ---- what runs of events keep -------------------------------------------------------------

  predicate Bounded(l: Ledger) {
    |l.files| <= l.slots <= U32_MAX && l.nameBytes <= U32_MAX && l.foldedBytes <= U32_MAX
  }

  /** Slots never shrink below the files they hold nor leave 32 bits, and the arenas only grow. */
  lemma {:induction false} RunStaysBounded(uni: Unicode, l: Ledger, evs: seq<Event>)
    requires Bounded(l)
    ensures var r := Run(uni, l, evs);
            Bounded(r) && l.nameBytes <= r.nameBytes && l.foldedBytes <= r.foldedBytes && l.slots <= r.slots
  {
    hide Usable;
    if evs != [] {
      RunStaysBounded(uni, l, evs[..|evs| - 1]);
      var m := Run(uni, l, evs[..|evs| - 1]);
      FewerFiles(m.files, evs[|evs| - 1].frn);
    }
  }

  lemma FewerFiles(files: map<nat, File>, frn: nat)
    ensures |files - {frn}| <= |files|
  {
    assert (files - {frn}).Keys == files.Keys - {frn};
  }

  /** A run leaves every file none of its events names exactly as it was. */
  lemma {:induction false} UnnamedFileStays(uni: Unicode, l: Ledger, evs: seq<Event>, frn: nat)
    requires forall i :: 0 <= i < |evs| ==> evs[i].frn != frn
    ensures frn in Run(uni, l, evs).files <==> frn in l.files
    ensures frn in l.files ==> Run(uni, l, evs).files[frn] == l.files[frn]
  {
    hide Usable, HasRoom;
    if evs != [] {
      UnnamedFileStays(uni, l, evs[..|evs| - 1], frn);
    }
  }

  lemma {:induction false} RunConcat(uni: Unicode, l: Ledger, a: seq<Event>, b: seq<Event>)
    ensures Run(uni, l, a + b) == Run(uni, Run(uni, l, a), b)
  {
    hide Step;
    if b == [] {
      assert a + b == a;
    } else {
      RunConcat(uni, l, a, b[..|b| - 1]);
      assert (a + b)[..|a + b| - 1] == a + b[..|b| - 1];
    }
  }

  /** The ledger has room for the event's name and, if it needs one, a slot. */
  predicate Takes(uni: Unicode, l: Ledger, ev: Event) {
    match ev
    case Create(frn, _, name, _) =>
      && Usable(uni, name) && HasRoom(uni, l.nameBytes, l.foldedBytes, name)
      && (frn in l.files || |l.files| < l.slots || l.slots < U32_MAX)
    case Rename(frn, _, name) => frn in l.files && Usable(uni, name) && HasRoom(uni, l.nameBytes, l.foldedBytes, name)
    case _ => false
  }

  /** What `was` holds of `frn`, `files` holds too, and nothing else of it. */
  predicate SameFile(was: map<nat, File>, files: map<nat, File>, frn: nat) {
    (frn in files <==> frn in was) && (frn in files ==> files[frn] == was[frn])
  }

  /** The last event that names a file has the last word on it: a delete leaves it gone, a create or rename the index
      takes leaves exactly the parent and the stored name given, and any other event leaves the file as it was. */
  lemma LastWord(uni: Unicode, l: Ledger, before: seq<Event>, ev: Event, after: seq<Event>)
    requires forall i :: 0 <= i < |after| ==> after[i].frn != ev.frn
    ensures var was, files := Run(uni, l, before), Run(uni, l, before + [ev] + after).files;
            && (ev.Delete? ==> ev.frn !in files)
            && (ev.Create? && Takes(uni, was, ev) ==>
                  ev.frn in files && files[ev.frn] ==
                    File(ev.parent, StoredName(uni, ev.name), ev.flags.(dead := false)))
            && (ev.Rename? && Takes(uni, was, ev) ==>
                  && ev.frn in files
                  && files[ev.frn] == File(ev.newParent, StoredName(uni, ev.newName), was.files[ev.frn].flags.(dead := false)))
            && (!ev.Delete? && !Takes(uni, was, ev) ==> SameFile(was.files, files, ev.frn))
  {
    hide Usable, HasRoom, Run;
    RunConcat(uni, l, before + [ev], after);
    RunSnoc(uni, l, before, ev);
    UnnamedFileStays(uni, Run(uni, l, before + [ev]), after, ev.frn);
  }
}
