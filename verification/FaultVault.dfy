/**
  The fault record kept in external flash when the reset information lives in overlaid RAM.
  Every storage operation may complete, report an error or lose power, and the RAM may or may not
  survive a boot. The store is meant to be a cell that is written once and stays until cleared.
 */
module FaultVault {
  import opened Words
  import opened Nor
  import opened FaultRecord

  datatype Ram = Ram(magic: Word, reason: Word, fault: Record)

  /** The flash reserved for the record. */
  type Area = a: Chip | |a| >= RecordSize witness seq(RecordSize, _ => 0xFF)

  datatype State = State(ram: Ram, flash: Area, dirty: bool, up: bool)

  /** An erase or a write; unless it is done the area may hold anything. */
  datatype FlashOp = FlashDone | FlashFailed(left: Area) | FlashLost(left: Area)

  /** Setting or deleting the dirty key is atomic, but an error or a power loss may come after it. */
  datatype KeyOp = KeyDone | KeyFailed(stored: bool) | KeyLost(stored: bool)

  /** Looking up the dirty key; a refused lookup is an error other than "no such key". */
  datatype Lookup = Answered | Refused | LookupLost

  datatype ReadOp = ReadDone | ReadFailed | ReadLost

  datatype Save = Save(lookup: Lookup, erase: FlashOp, write: FlashOp, mark: KeyOp)

  datatype Query = Query(lookup: Lookup, read: ReadOp, clear: KeyOp)

  datatype Event =
    | OnBoot(ram: Option<Ram>, save: Save, show: Option<Query>)
    | OnPrepare(reason: Word, desc: Option<Text>)
    | OnBootloaderPrepare(reason: Word, desc: Option<Text>)
    | OnRamWrite(contents: Ram)
    | OnQuery(query: Query)
    | OnClear(op: KeyOp)

  // ----- storage -----

  function Head(flash: Area): (r: Record) {
    flash[..RecordSize]
  }

  function AfterErase(flash: Area, op: FlashOp): (r: Area) {
    if op.FlashDone? then Erased(flash, 0, |flash|) else op.left
  }

  function AfterWrite(flash: Area, rec: Record, op: FlashOp): (r: Area) {
    if op.FlashDone? then Burn(flash, Cells(0, rec)) else op.left
  }

  function AfterKey(dirty: bool, value: bool, op: KeyOp): (r: bool) {
    if op.KeyDone? || op.stored then value else dirty
  }

  /** Whether a lookup finds the key: it exists and the lookup is answered. */
  predicate Found(s: State, lookup: Lookup) {
    lookup.Answered? && s.dirty
  }

  // ----- operations -----

  function SaveFault(s: State, o: Save): (r: State) {
    if o.lookup.LookupLost? then s.(up := false)
    else if Found(s, o.lookup) then s
    else
      var rec := WithReason(s.ram.fault, s.ram.reason);
      var s1 := s.(ram := s.ram.(fault := rec), flash := AfterErase(s.flash, o.erase), up := !o.erase.FlashLost?);
      if !o.erase.FlashDone? then s1
      else
        var s2 := s1.(flash := AfterWrite(s1.flash, rec, o.write), up := !o.write.FlashLost?);
        if !o.write.FlashDone? then s2
        else s2.(dirty := AfterKey(s2.dirty, true, o.mark), up := !o.mark.KeyLost?)
  }

  function Clear(s: State, op: KeyOp): (r: State) {
    s.(dirty := AfterKey(s.dirty, false, op), up := !op.KeyLost?)
  }

  function AfterQuery(s: State, q: Query): (r: State) {
    if q.lookup.LookupLost? then s.(up := false)
    else if !Found(s, q.lookup) then s
    else if q.read.ReadLost? then s.(up := false)
    else if q.read.ReadDone? && !IsFault(ReasonOf(Head(s.flash))) then Clear(s, q.clear)
    else s
  }

  /** What a query hands out. */
  function Answer(s: State, q: Query): (r: Option<Record>) {
    if Found(s, q.lookup) && q.read.ReadDone? && IsFault(ReasonOf(Head(s.flash))) then Some(Head(s.flash)) else None
  }

  function Tidied(ram: Ram): (r: Ram) {
    if ram.magic == Magic then ram else ram.(reason := Unknown, fault := WithReason(ram.fault, Unknown))
  }

  predicate HoldsFault(ram: Ram) {
    ram.magic == Magic && IsFault(ram.reason)
  }

  function Init(s: State, save: Save, show: Option<Query>): (r: State) {
    var s1 := s.(ram := Tidied(s.ram));
    var s2 := if HoldsFault(s1.ram) then SaveFault(s1, save) else s1;
    var s3 := if s2.up && show.Some? then AfterQuery(s2, show.value) else s2;
    if s3.up then s3.(ram := s3.ram.(magic := 0)) else s3
  }

  function Described(rec: Record, desc: Option<Text>): (r: Record) {
    if desc.Some? then WithDesc(rec, desc.value) else rec
  }

  function SetRam(ram: Ram, reason: Word, desc: Option<Text>): (r: Ram) {
    if IsFault(reason) then Ram(Magic, reason, Described(WithReason(ram.fault, Unknown), desc))
    else ram.(magic := Magic, reason := reason)
  }

  function Prepare(ram: Ram, reason: Word, desc: Option<Text>): (r: Ram) {
    if ram.magic != Magic then SetRam(ram, reason, desc) else ram
  }

  function BootloaderPrepare(ram: Ram, reason: Word, desc: Option<Text>): (r: Ram) {
    if ram.magic != Magic || IsFault(reason) then SetRam(ram, reason, desc) else ram
  }

  function PowerUp(s: State, ram: Option<Ram>): (r: State) {
    s.(up := true, ram := if ram.Some? then ram.value else s.ram)
  }

  /** Nothing but a boot happens while power is off. */
  function Step(s: State, e: Event): (r: State) {
    if e.OnBoot? then Init(PowerUp(s, e.ram), e.save, e.show)
    else if !s.up then s
    else
      match e
      case OnPrepare(reason, desc) => s.(ram := Prepare(s.ram, reason, desc))
      case OnBootloaderPrepare(reason, desc) => s.(ram := BootloaderPrepare(s.ram, reason, desc))
      case OnRamWrite(ram) => s.(ram := ram)
      case OnQuery(query) => AfterQuery(s, query)
      case OnClear(op) => Clear(s, op)
  }

  function Run(s: State, es: seq<Event>): (r: State)
    decreases |es|
  {
    if es == [] then s else Run(Step(s, es[0]), es[1..])
  }

  // ----- the record is whole, and stays -----

  /** A set dirty key means the record in flash has a valid fault reason. */
  predicate Sound(s: State) {
    s.dirty ==> IsFault(ReasonOf(Head(s.flash)))
  }

  function Vault(s: State): (r: Option<Record>) {
    if s.dirty then Some(Head(s.flash)) else None
  }

  /** The record a boot makes of a fault found in RAM, all of its bytes. */
  function RecordOf(ram: Ram): (r: Record) {
    WithReason(ram.fault, ram.reason)
  }

  function BootRam(s: State, e: Event): (r: Ram)
    requires e.OnBoot?
  {
    PowerUp(s, e.ram).ram
  }

  /** Boot i of the run found the vault empty and a fault in RAM, its save took, and `rec` is that fault's record. */
  predicate Lodged(s: State, es: seq<Event>, i: nat, rec: Record) {
    && i < |es| && es[i].OnBoot? && Took(es[i].save)
    && var t := Run(s, es[..i]);
       !t.dirty && HoldsFault(BootRam(t, es[i])) && rec == RecordOf(BootRam(t, es[i]))
  }

  /** A boot does not see a refused lookup of a key that is set. */
  predicate Honest(s: State, e: Event) {
    e.OnBoot? && e.save.lookup.Refused? ==> !s.dirty
  }

  predicate HonestRun(s: State, es: seq<Event>)
    decreases |es|
  {
    es != [] ==> Honest(s, es[0]) && HonestRun(Step(s, es[0]), es[1..])
  }

  predicate ClearFree(es: seq<Event>) {
    forall i :: 0 <= i < |es| ==> !es[i].OnClear?
  }

  /** Programming erased flash stores the record exactly. */
  lemma {:induction false} StoresExactly(flash: Area, rec: Record)
    ensures Head(AfterWrite(AfterErase(flash, FlashDone), rec, FlashDone)) == rec
  {
    var blank := Erased(flash, 0, |flash|);
    var written := Burn(blank, Cells(0, rec));
    forall j | 0 <= j < RecordSize
      ensures written[j] == rec[j]
    {
      BurnBlank(blank, 0, rec, j);
    }
    assert written[..RecordSize] == rec;
  }

  /** A save never touches a record that is there, and otherwise sets the key exactly when the whole record is in flash. */
  lemma {:induction false} SaveKeeps(s: State, o: Save)
    requires Sound(s) && IsFault(s.ram.reason) && (o.lookup.Refused? ==> !s.dirty)
    ensures Sound(SaveFault(s, o))
    ensures s.dirty ==> Vault(SaveFault(s, o)) == Vault(s)
    ensures !s.dirty ==> Vault(SaveFault(s, o)) == if Took(o) then Some(RecordOf(s.ram)) else None
  {
    StoresExactly(s.flash, WithReason(s.ram.fault, s.ram.reason));
    FieldsApart(s.ram.fault, s.ram.reason, []);
  }

  /** Asking for the saved fault hands out the record and never discards it. */
  lemma {:induction false} QueryKeeps(s: State, q: Query)
    requires Sound(s)
    ensures AfterQuery(s, q).(up := true) == s.(up := true)
    ensures Answer(s, q) == if q.lookup == Answered && q.read == ReadDone then Vault(s) else None
  {
  }

  lemma {:induction false} InitKeeps(s: State, save: Save, show: Option<Query>)
    requires Sound(s) && (save.lookup.Refused? ==> !s.dirty)
    ensures var r := Init(s, save, show);
      && Sound(r) && (s.dirty ==> Vault(r) == Vault(s))
      && (!s.dirty && r.dirty ==> Took(save) && HoldsFault(s.ram) && Head(r.flash) == RecordOf(s.ram))
  {
    var s1 := s.(ram := Tidied(s.ram));
    if HoldsFault(s1.ram) {
      SaveKeeps(s1, save);
    }
    var s2 := if HoldsFault(s1.ram) then SaveFault(s1, save) else s1;
    if s2.up && show.Some? {
      QueryKeeps(s2, show.value);
    }
  }

  /** One event: a record that is there stays as it is, or is cleared; a new one is lodged whole by a boot. */
  lemma {:induction false} StepKeeps(s: State, e: Event)
    requires Sound(s) && Honest(s, e)
    ensures Sound(Step(s, e))
    ensures s.dirty ==> Vault(Step(s, e)) == Vault(s) || (e.OnClear? && !Step(s, e).dirty)
    ensures !s.dirty && Step(s, e).dirty ==>
      e.OnBoot? && Took(e.save) && HoldsFault(BootRam(s, e)) && Head(Step(s, e).flash) == RecordOf(BootRam(s, e))
  {
    if e.OnBoot? {
      InitKeeps(PowerUp(s, e.ram), e.save, e.show);
    } else if s.up && e.OnQuery? {
      QueryKeeps(s, e.query);
    }
  }

  /** Over any number of boots and power losses: a set key has a valid fault reason behind it, and only a clear ends a record. */
  lemma {:induction false} RunKeeps(s: State, es: seq<Event>)
    requires Sound(s) && HonestRun(s, es)
    ensures Sound(Run(s, es))
    ensures s.dirty && ClearFree(es) ==> Vault(Run(s, es)) == Vault(s)
    decreases |es|
  {
    if es != [] {
      StepKeeps(s, es[0]);
      RunKeeps(Step(s, es[0]), es[1..]);
    }
  }

  lemma {:induction false} LodgedLater(s: State, es: seq<Event>, i: nat, rec: Record)
    requires es != [] && Lodged(Step(s, es[0]), es[1..], i, rec)
    ensures Lodged(s, es, i + 1, rec)
  {
    assert es[..i + 1][0] == es[0] && es[..i + 1][1..] == es[1..][..i];
  }

  /** What stands behind a set key after any run is one complete record, byte for byte: the one that was there
      at the start, or the one that some boot of the run made of the fault it found in RAM. */
  lemma {:induction false} RunWhole(s: State, es: seq<Event>)
    requires Sound(s) && HonestRun(s, es)
    ensures var r := Run(s, es);
      r.dirty ==> (s.dirty && Vault(r) == Vault(s)) || exists i: nat :: Lodged(s, es, i, Head(r.flash))
    decreases |es|
  {
    if es != [] && Run(s, es).dirty {
      var t, rec := Step(s, es[0]), Head(Run(s, es).flash);
      StepKeeps(s, es[0]);
      RunWhole(t, es[1..]);
      if t.dirty && Vault(Run(s, es)) == Vault(t) {
        if !s.dirty {
          assert es[..0] == [];
          assert Lodged(s, es, 0, rec);
        }
      } else {
        var i: nat :| Lodged(t, es[1..], i, rec);
        LodgedLater(s, es, i, rec);
      }
    }
  }

  // ----- clearing, and saving again -----

  /** A clear that completes empties the vault, and one that fails leaves it alone unless it took all the same. */
  lemma {:induction false} ClearEmpties(s: State)
    requires s.up
    ensures Vault(Step(s, OnClear(KeyDone))).None?
    ensures Vault(Step(s, OnClear(KeyFailed(true)))).None? && Vault(Step(s, OnClear(KeyLost(true)))).None?
    ensures Step(s, OnClear(KeyFailed(false))) == s && Step(s, OnClear(KeyLost(false))) == s.(up := false)
  {
  }

  /** A boot with working storage that finds the vault empty and a fault in RAM puts that fault's record into the vault. */
  lemma {:induction false} BootLodges(s: State, ram: Option<Ram>, show: Option<Query>)
    requires !s.dirty
    requires var found := if ram.Some? then ram.value else s.ram; found.magic == Magic && 5 <= found.reason <= 8
    ensures var found := if ram.Some? then ram.value else s.ram;
      var r := Step(s, OnBoot(ram, Save(Answered, FlashDone, FlashDone, KeyDone), show));
      && r.dirty && ReasonOf(Head(r.flash)) == found.reason && Head(r.flash)[4..] == found.fault[4..]
  {
    var e := OnBoot(ram, Save(Answered, FlashDone, FlashDone, KeyDone), show);
    var s1 := PowerUp(s, ram);
    SaveKeeps(s1, e.save);
    FieldsApart(s1.ram.fault, s1.ram.reason, []);
    var s2 := SaveFault(s1, e.save);
    if show.Some? {
      QueryKeeps(s2, show.value);
    }
  }

  predicate BootFree(es: seq<Event>) {
    forall i :: 0 <= i < |es| ==> !es[i].OnBoot?
  }

  lemma {:induction false} StaysEmpty(s: State, es: seq<Event>)
    requires !s.dirty && BootFree(es)
    ensures !Run(s, es).dirty
    decreases |es|
  {
    if es != [] {
      StepKeeps(s, es[0]);
      StaysEmpty(Step(s, es[0]), es[1..]);
    }
  }

  lemma {:induction false} RunConcat(s: State, a: seq<Event>, b: seq<Event>)
    ensures Run(s, a + b) == Run(Run(s, a), b)
    decreases |a|
  {
    if a == [] {
      assert a + b == b;
    } else {
      assert (a + b)[0] == a[0] && (a + b)[1..] == a[1..] + b;
      RunConcat(Step(s, a[0]), a[1..], b);
    }
  }

  /** After a completed clear the next boot that finds a fault in kept RAM saves that fault, whatever was on record before. */
  lemma {:induction false} ClearedThenSaved(s: State, es: seq<Event>)
    requires s.up && BootFree(es)
    requires var ram := Run(s, [OnClear(KeyDone)] + es).ram; ram.magic == Magic && 5 <= ram.reason <= 8
    ensures var ram := Run(s, [OnClear(KeyDone)] + es).ram;
      var r := Run(s, [OnClear(KeyDone)] + es + [OnBoot(None, Save(Answered, FlashDone, FlashDone, KeyDone), None)]);
      r.dirty && ReasonOf(Head(r.flash)) == ram.reason && Head(r.flash)[4..] == ram.fault[4..]
  {
    var before, boot := [OnClear(KeyDone)] + es, OnBoot(None, Save(Answered, FlashDone, FlashDone, KeyDone), None);
    ClearEmpties(s);
    assert before[0] == OnClear(KeyDone) && before[1..] == es;
    StaysEmpty(Step(s, OnClear(KeyDone)), es);
    RunConcat(s, before, [boot]);
    assert Run(Run(s, before), [boot]) == Step(Run(s, before), boot);
    BootLodges(Run(s, before), None, None);
  }

  // ----- the one way to lose a record -----

  /** The save leaves a record that was there as it was, and no key without a complete record. */
  predicate SafeWith(s: State, o: Save) {
    var r := SaveFault(s, o);
    && (s.dirty ==> Vault(r) == Vault(s))
    && (!s.dirty ==> Vault(r) == if Took(o) then Some(RecordOf(s.ram)) else None)
  }

  /** Saving a fault is safe, whatever the storage does, exactly when a set key is not reported missing. */
  lemma {:induction false} SaveSafeExactly(s: State, lookup: Lookup)
    requires Sound(s) && IsFault(s.ram.reason)
    ensures (forall e, w, k :: SafeWith(s, Save(lookup, e, w, k))) <==> !(s.dirty && lookup.Refused?)
  {
    if s.dirty && lookup.Refused? {
      var blank: Area := seq(RecordSize, _ => 0xFF);
      var o := Save(lookup, FlashLost(blank), FlashDone, KeyDone);
      assert Head(blank) == blank;
      assert Vault(SaveFault(s, o)) == Some(blank);
      assert !SafeWith(s, o);
    } else {
      forall e, w, k
        ensures SafeWith(s, Save(lookup, e, w, k))
      {
        SaveKeeps(s, Save(lookup, e, w, k));
      }
    }
  }

  /** If the lookup is refused and all else succeeds, the new fault replaces the uncleared one. */
  lemma {:induction false} RefusedLookupReplaces(s: State)
    requires s.dirty && s.up && HoldsFault(s.ram)
    ensures var r := Step(s, OnBoot(None, Save(Refused, FlashDone, FlashDone, KeyDone), None));
      Vault(r) == Some(RecordOf(s.ram))
  {
    StoresExactly(s.flash, WithReason(s.ram.fault, s.ram.reason));
  }

  // ----- which fault it is -----

  /** A reset as its caller described it. */
  datatype Note = Note(reason: Word, desc: Option<Text>)

  /** The reset waiting for the next boot, and the fault in the vault. */
  datatype Ledger = Ledger(pending: Option<Note>, saved: Option<Note>, up: bool)

  function Took(o: Save): (r: bool) {
    !o.lookup.LookupLost? && o.erase.FlashDone? && o.write.FlashDone? && (o.mark.KeyDone? || o.mark.stored)
  }

  /** Whether power is lost while a fault is saved into an empty vault. */
  function Broke(o: Save): (r: bool) {
    || o.lookup.LookupLost?
    || o.erase.FlashLost?
    || (o.erase.FlashDone? && o.write.FlashLost?)
    || (o.erase.FlashDone? && o.write.FlashDone? && o.mark.KeyLost?)
  }

  function QueryBroke(saved: bool, q: Query): (r: bool) {
    q.lookup.LookupLost? || (saved && q.lookup.Answered? && q.read.ReadLost?)
  }

  function Booted(l: Ledger, kept: bool, save: Save, show: Option<Query>): (r: Ledger) {
    var p := if kept then l.pending else None;
    var fault := p.Some? && IsFault(p.value.reason);
    var saved := if fault && l.saved.None? && Took(save) then p else l.saved;
    var up := fault ==> if l.saved.Some? then !save.lookup.LookupLost? else !Broke(save);
    var up' := up && (show.Some? ==> !QueryBroke(saved.Some?, show.value));
    Ledger(if up' then None else p, saved, up')
  }

  function Enter(l: Ledger, e: Event): (r: Ledger) {
    if e.OnBoot? then Booted(l, e.ram.None?, e.save, e.show)
    else if !l.up then l
    else
      match e
      case OnPrepare(reason, desc) =>
        if l.pending.None? then l.(pending := Some(Note(reason, desc))) else l
      case OnBootloaderPrepare(reason, desc) =>
        if l.pending.None? || IsFault(reason) then l.(pending := Some(Note(reason, desc))) else l
      case OnRamWrite(_) => l
      case OnQuery(q) => l.(up := !QueryBroke(l.saved.Some?, q))
      case OnClear(op) =>
        match op
        case KeyDone => l.(saved := None)
        case KeyFailed(stored) => if stored then l.(saved := None) else l
        case KeyLost(stored) => Ledger(l.pending, if stored then None else l.saved, false)
  }

  function EnterAll(l: Ledger, es: seq<Event>): (r: Ledger)
    decreases |es|
  {
    if es == [] then l else EnterAll(Enter(l, es[0]), es[1..])
  }

  predicate Matches(rec: Record, desc: Option<Text>) {
    desc.Some? ==> DescOf(rec) == Field(desc.value)
  }

  predicate RamMatches(ram: Ram, pending: Option<Note>) {
    && (pending.Some? <==> ram.magic == Magic)
    && (pending.Some? ==> ram.reason == pending.value.reason)
    && (pending.Some? && IsFault(ram.reason) ==> Matches(ram.fault, pending.value.desc))
  }

  predicate VaultMatches(s: State, saved: Option<Note>) {
    && (saved.Some? <==> s.dirty)
    && (saved.Some? ==> ReasonOf(Head(s.flash)) == saved.value.reason && Matches(Head(s.flash), saved.value.desc))
  }

  predicate Agrees(s: State, l: Ledger) {
    s.up == l.up && Sound(s) && RamMatches(s.ram, l.pending) && VaultMatches(s, l.saved)
  }

  /** RAM is overlaid while no reset is pending, and never by chance with the magic word; the fault
      handler fills in the rest of a pending record. */
  predicate Decent(s: State, e: Event) {
    && Honest(s, e)
    && (e.OnBoot? && e.ram.Some? ==> e.ram.value.magic != Magic)
    && (e.OnRamWrite? && s.ram.magic != Magic ==> e.contents.magic != Magic)
    && (e.OnRamWrite? && s.ram.magic == Magic ==>
          e.contents.magic == Magic && e.contents.reason == s.ram.reason && DescOf(e.contents.fault) == DescOf(s.ram.fault))
  }

  predicate DecentRun(s: State, es: seq<Event>)
    decreases |es|
  {
    es != [] ==> Decent(s, es[0]) && DecentRun(Step(s, es[0]), es[1..])
  }

  lemma {:induction false} SetMatches(ram: Ram, reason: Word, desc: Option<Text>)
    ensures RamMatches(SetRam(ram, reason, desc), Some(Note(reason, desc)))
  {
    if desc.Some? {
      FieldsApart(WithReason(ram.fault, Unknown), Unknown, desc.value);
    }
  }

  /** Saving a fault that is pending either stores it whole or leaves the vault as it was. */
  lemma {:induction false} SaveMatches(s: State, o: Save, l: Ledger)
    requires Agrees(s, l) && s.up && HoldsFault(s.ram) && (o.lookup.Refused? ==> !s.dirty)
    ensures var r := SaveFault(s, o);
      && Sound(r)
      && RamMatches(r.ram, l.pending)
      && VaultMatches(r, if l.saved.None? && Took(o) then l.pending else l.saved)
      && r.up == (if l.saved.Some? then !o.lookup.LookupLost? else !Broke(o))
  {
    var rec := WithReason(s.ram.fault, s.ram.reason);
    SaveKeeps(s, o);
    StoresExactly(s.flash, rec);
    FieldsApart(s.ram.fault, s.ram.reason, []);
    assert Matches(rec, l.pending.value.desc);
  }

  lemma {:induction false} BootMatches(s: State, l: Ledger, e: Event)
    requires Agrees(s, l) && e.OnBoot? && Decent(s, e)
    ensures Agrees(Step(s, e), Enter(l, e))
  {
    var s0 := PowerUp(s, e.ram);
    var l0 := Ledger(if e.ram.None? then l.pending else None, l.saved, true);
    var s1 := s0.(ram := Tidied(s0.ram));
    assert Agrees(s1, l0);
    var fault := HoldsFault(s1.ram);
    if fault {
      SaveMatches(s1, e.save, l0);
    }
    var s2 := if fault then SaveFault(s1, e.save) else s1;
    if s2.up && e.show.Some? {
      QueryKeeps(s2, e.show.value);
    }
  }

  lemma {:induction false} StepMatches(s: State, l: Ledger, e: Event)
    requires Agrees(s, l) && Decent(s, e)
    ensures Agrees(Step(s, e), Enter(l, e))
  {
    if e.OnBoot? {
      BootMatches(s, l, e);
    } else if s.up {
      match e {
        case OnPrepare(reason, desc) => SetMatches(s.ram, reason, desc);
        case OnBootloaderPrepare(reason, desc) => SetMatches(s.ram, reason, desc);
        case OnQuery(q) => QueryKeeps(s, q);
        case _ =>
      }
    }
  }

  /** The saved note is the one that was pending when its record was lodged. */
  predicate LodgedNote(s: State, l: Ledger, es: seq<Event>, i: nat, rec: Record, n: Note) {
    Lodged(s, es, i, rec) && EnterAll(l, es[..i]).pending == Some(n)
  }

  lemma {:induction false} NoteLater(s: State, l: Ledger, es: seq<Event>, i: nat, rec: Record, n: Note)
    requires es != [] && LodgedNote(Step(s, es[0]), Enter(l, es[0]), es[1..], i, rec, n)
    ensures LodgedNote(s, l, es, i + 1, rec, n)
  {
    LodgedLater(s, es, i, rec);
    assert es[..i + 1][0] == es[0] && es[..i + 1][1..] == es[1..][..i];
  }

  /** Bytes, magic words and keys follow the ledger of pending and saved resets over every run. */
  lemma {:induction false} RunAgrees(s: State, l: Ledger, es: seq<Event>)
    requires Agrees(s, l) && DecentRun(s, es)
    ensures Agrees(Run(s, es), EnterAll(l, es))
    decreases |es|
  {
    if es != [] {
      StepMatches(s, l, es[0]);
      RunAgrees(Step(s, es[0]), Enter(l, es[0]), es[1..]);
    }
  }

  /** The saved note and its record come from before the run, or were lodged together by one of its boots. */
  ghost predicate Origin(s: State, l: Ledger, es: seq<Event>, rec: Record, n: Note) {
    || (l.saved == Some(n) && Vault(s) == Some(rec))
    || exists i: nat :: LodgedNote(s, l, es, i, rec, n)
  }

  lemma {:induction false} StepOrigin(s: State, l: Ledger, es: seq<Event>, rec: Record, n: Note)
    requires es != [] && Agrees(s, l) && Decent(s, es[0])
    requires Enter(l, es[0]).saved == Some(n) && Vault(Step(s, es[0])) == Some(rec)
    ensures Origin(s, l, es, rec, n)
  {
    StepKeeps(s, es[0]);
    if l.saved.None? {
      assert es[..0] == [];
      assert LodgedNote(s, l, es, 0, rec, n);
    }
  }

  lemma {:induction false} RunOrigin(s: State, l: Ledger, es: seq<Event>, rec: Record, n: Note)
    requires Agrees(s, l) && DecentRun(s, es)
    requires EnterAll(l, es).saved == Some(n) && Vault(Run(s, es)) == Some(rec)
    ensures Origin(s, l, es, rec, n)
    decreases |es|
  {
    if es != [] {
      var t, k := Step(s, es[0]), Enter(l, es[0]);
      StepMatches(s, l, es[0]);
      RunOrigin(t, k, es[1..], rec, n);
      if k.saved == Some(n) && Vault(t) == Some(rec) {
        StepOrigin(s, l, es, rec, n);
      } else {
        var i: nat :| LodgedNote(t, k, es[1..], i, rec, n);
        NoteLater(s, l, es, i, rec, n);
      }
    }
  }

  /** The run follows the ledger, and every byte of the record behind a saved note is what RAM held at the boot that
      lodged it, when that note was pending. */
  lemma {:induction false} RunMatches(s: State, l: Ledger, es: seq<Event>)
    requires Agrees(s, l) && DecentRun(s, es)
    ensures Agrees(Run(s, es), EnterAll(l, es))
    ensures EnterAll(l, es).saved.Some? ==> Origin(s, l, es, Head(Run(s, es).flash), EnterAll(l, es).saved.value)
  {
    RunAgrees(s, l, es);
    if EnterAll(l, es).saved.Some? {
      RunOrigin(s, l, es, Head(Run(s, es).flash), EnterAll(l, es).saved.value);
    }
  }

  // ----- a fault survives power losses while it is being saved -----

  /** Boots with RAM kept that lose power while saving, wherever that happens. */
  predicate LostBoots(es: seq<Event>) {
    forall i :: 0 <= i < |es| ==> es[i].OnBoot? && es[i].ram.None? && Broke(es[i].save)
  }

  predicate Carries(l: Ledger, n: Note) {
    l.saved == Some(n) || (l.saved.None? && l.pending == Some(n))
  }

  lemma {:induction false} LostBootsCarry(l: Ledger, es: seq<Event>, n: Note)
    requires LostBoots(es) && Carries(l, n) && IsFault(n.reason)
    ensures Carries(EnterAll(l, es), n)
    decreases |es|
  {
    if es != [] {
      assert Carries(Enter(l, es[0]), n);
      LostBootsCarry(Enter(l, es[0]), es[1..], n);
    }
  }

  lemma {:induction false} EnterLast(l: Ledger, es: seq<Event>, e: Event)
    ensures EnterAll(l, es + [e]) == Enter(EnterAll(l, es), e)
    decreases |es|
  {
    if es == [] {
      assert es + [e] == [e];
    } else {
      assert (es + [e])[1..] == es[1..] + [e];
      EnterLast(Enter(l, es[0]), es[1..], e);
    }
  }

  /** After any number of boots that lost power, the first boot whose storage works saves the fault. */
  lemma {:induction false} SavedInTheEnd(s: State, l: Ledger, es: seq<Event>, last: Event, n: Note)
    requires Agrees(s, l) && Carries(l, n) && IsFault(n.reason)
    requires LostBoots(es) && last.OnBoot? && last.ram.None? && Took(last.save)
    requires DecentRun(s, es + [last])
    ensures VaultMatches(Run(s, es + [last]), Some(n))
  {
    LostBootsCarry(l, es, n);
    EnterLast(l, es, last);
    RunMatches(s, l, es + [last]);
  }
}
