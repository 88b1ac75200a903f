/**
  Reset information in overlaid RAM, with the fault record saved to external flash on the next
  boot (the RESET_INFO_IN_TEMP_RAM build).
 */
module OverlaidReset {
  import opened Words
  import opened Nor
  import opened FaultRecord
  import opened FaultVault

  class ResetInfo {
    // g_reset_info
    var magic: Word
    var reason: Word
    var fault: Record
    // the external flash area, the dirty key in the environment, and power
    var flash: Area
    var dirty: bool
    var up: bool

    function View(): (s: State)
      reads this
    {
      State(Ram(magic, reason, fault), flash, dirty, up)
    }

    // ----- storage operations -----

    method EraseArea(op: FlashOp) returns (ok: bool)
      modifies this`flash, this`up
      ensures flash == AfterErase(old(flash), op)
      ensures ok == op.FlashDone? && up == (old(up) && !op.FlashLost?)
    {
      match op {
        case FlashDone => flash := Erased(flash, 0, |flash|);
        case FlashFailed(left) => flash := left;
        case FlashLost(left) => flash, up := left, false;
      }
      ok := op.FlashDone?;
    }

    method WriteRecord(op: FlashOp) returns (ok: bool)
      modifies this`flash, this`up
      ensures flash == AfterWrite(old(flash), fault, op)
      ensures ok == op.FlashDone? && up == (old(up) && !op.FlashLost?)
    {
      match op {
        case FlashDone => flash := Burn(flash, Cells(0, fault));
        case FlashFailed(left) => flash := left;
        case FlashLost(left) => flash, up := left, false;
      }
      ok := op.FlashDone?;
    }

    method SetKey(value: bool, op: KeyOp)
      modifies this`dirty, this`up
      ensures dirty == AfterKey(old(dirty), value, op)
      ensures op.KeyDone? ==> dirty == value
      ensures up == (old(up) && !op.KeyLost?)
    {
      match op {
        case KeyDone => dirty := value;
        case KeyFailed(stored) =>
          if stored {
            dirty := value;
          }
        case KeyLost(stored) =>
          if stored {
            dirty := value;
          }
          up := false;
      }
    }

    method GetKey(lookup: Lookup) returns (found: bool)
      modifies this`up
      ensures found == (lookup.Answered? && dirty)
      ensures up == (old(up) && !lookup.LookupLost?)
    {
      if lookup.LookupLost? {
        up := false;
      }
      found := lookup.Answered? && dirty;
    }

    // ----- the module's functions -----

    /** Under a truthful lookup a record that is there is not touched, and otherwise the key is set exactly when
        every operation took, with the whole of the RAM record in flash behind it. */
    method SaveFaultToFlash(o: Save)
      requires up
      modifies this`fault, this`flash, this`dirty, this`up
      ensures View() == SaveFault(old(View()), o)
      ensures o.lookup != Refused && old(dirty) ==> dirty && flash == old(flash)
      ensures !old(dirty) ==> (dirty <==> Took(o))
      ensures !old(dirty) && dirty ==> Head(flash) == WithReason(old(fault), reason)
    {
      var found := GetKey(o.lookup);
      if !up || found {
        return;
      }
      fault := WithReason(fault, reason);
      StoresExactly(flash, fault);
      var ok := EraseArea(o.erase);
      if !ok {
        return;
      }
      ok := WriteRecord(o.write);
      if !ok {
        return;
      }
      SetKey(true, o.mark);
    }

    /** A boot: the ledger's pending reset is saved if it is a fault and none is on record, and then forgotten. A fault
        found in RAM is still there if power was lost. */
    method Init(save: Save, show: Option<Query>, ghost l: Ledger)
      requires up
      modifies this
      ensures View() == FaultVault.Init(old(View()), save, show)
      ensures up ==> magic != Magic
      ensures old(magic) != Magic ==> reason == Unknown && ReasonOf(fault) == Unknown && flash == old(flash)
      ensures !up && HoldsFault(old(View()).ram) ==> HoldsFault(View().ram) && RecordOf(View().ram) == RecordOf(old(View()).ram)
      ensures var e := OnBoot(None, save, show);
        Agrees(old(View()), l) && Decent(old(View()), e) ==> Agrees(View(), Enter(l, e))
    {
      ProcessReset(save, show);
      BootForgets(old(View()), save, show);
      BootFollows(old(View()), l, save, show);
    }

    method ProcessReset(save: Save, show: Option<Query>)
      requires up
      modifies this
      ensures View() == FaultVault.Init(old(View()), save, show)
    {
      if magic != Magic {
        reason := Unknown;
        fault := WithReason(fault, Unknown);
      }
      if magic == Magic && IsFault(reason) {
        SaveFaultToFlash(save);
        if !up {
          return;
        }
      }
      if show.Some? {
        var saved := GetSavedFault(show.value);
        if !up {
          return;
        }
      }
      magic := 0;
    }

    /** A reset is on record, and a fault's description, if given, reads back cut at the size of its field. */
    method SetReset(newReason: Word, desc: Option<Text>)
      modifies this`magic, this`reason, this`fault
      ensures View().ram == SetRam(old(View()).ram, newReason, desc)
      ensures magic == Magic && reason == newReason
      ensures IsFault(newReason) && desc.Some? ==> TextIn(DescOf(fault)) == desc.value[..Min(DescSize, |desc.value|)]
      ensures IsFault(newReason) ==> ReasonOf(fault) == Unknown
      ensures IsFault(newReason) && desc.None? ==> DescOf(fault) == old(DescOf(fault))
      ensures fault[4..DescAt] == old(fault[4..DescAt]) && fault[DescAt + DescSize..] == old(fault[DescAt + DescSize..])
      ensures !IsFault(newReason) ==> fault == old(fault)
      ensures RamMatches(View().ram, Some(Note(newReason, desc)))
    {
      SetMatches(View().ram, newReason, desc);
      FieldsApart(fault, Unknown, []);
      magic := Magic;
      reason := newReason;
      if IsFault(newReason) {
        fault := WithReason(fault, Unknown);
        if desc.Some? {
          DescriptionReadsBack(fault, desc.value);
          FieldsApart(fault, Unknown, desc.value);
          fault := WithDesc(fault, desc.value);
        }
      }
    }

    /** The first reset of a boot is kept: nothing changes once one is pending. */
    method PrepareReset(newReason: Word, desc: Option<Text>, ghost l: Ledger)
      requires up
      modifies this`magic, this`reason, this`fault
      ensures View().ram == Prepare(old(View()).ram, newReason, desc)
      ensures old(magic) == Magic ==> View() == old(View())
      ensures old(magic) != Magic ==> magic == Magic && reason == newReason
      ensures old(magic) != Magic && IsFault(newReason) && desc.Some? ==>
        TextIn(DescOf(fault)) == desc.value[..Min(DescSize, |desc.value|)]
      ensures Agrees(old(View()), l) ==> Agrees(View(), Enter(l, OnPrepare(newReason, desc)))
    {
      if magic != Magic {
        SetReset(newReason, desc);
      }
    }

    /** A fault in the bootloader replaces what is pending; anything else behaves as in the application. */
    method PrepareResetBootloader(newReason: Word, desc: Option<Text>, ghost l: Ledger)
      requires up
      modifies this`magic, this`reason, this`fault
      ensures View().ram == BootloaderPrepare(old(View()).ram, newReason, desc)
      ensures old(magic) == Magic && !IsFault(newReason) ==> View() == old(View())
      ensures old(magic) != Magic || IsFault(newReason) ==> magic == Magic && reason == newReason
      ensures IsFault(newReason) && desc.Some? ==> TextIn(DescOf(fault)) == desc.value[..Min(DescSize, |desc.value|)]
      ensures Agrees(old(View()), l) ==> Agrees(View(), Enter(l, OnBootloaderPrepare(newReason, desc)))
    {
      if magic != Magic || IsFault(newReason) {
        SetReset(newReason, desc);
      }
    }

    /** With a sound store this hands out the vault's record and changes nothing but power. */
    method GetSavedFault(q: Query) returns (saved: Option<Record>)
      requires up
      modifies this`dirty, this`up
      ensures View() == AfterQuery(old(View()), q) && saved == Answer(old(View()), q)
      ensures Sound(old(View())) ==> dirty == old(dirty)
      ensures Sound(old(View())) ==> saved == if q.lookup == Answered && q.read == ReadDone then Vault(old(View())) else None
    {
      saved := None;
      var found := GetKey(q.lookup);
      if !found {
        return;
      }
      match q.read {
        case ReadDone =>
          saved := Some(Head(flash));
          if !IsFault(ReasonOf(saved.value)) {
            ClearSavedFault(q.clear);
            saved := None;
          }
        case ReadFailed =>
        case ReadLost => up := false;
      }
    }

    /** A clear that completes deletes the key. */
    method ClearSavedFault(op: KeyOp)
      requires up
      modifies this`dirty, this`up
      ensures View() == Clear(old(View()), op)
      ensures op.KeyDone? ==> !dirty
      ensures dirty ==> old(dirty)
    {
      SetKey(false, op);
    }

    /** Any event; nothing but a boot happens while power is off. */
    method Perform(e: Event, ghost l: Ledger)
      modifies this
      ensures View() == Step(old(View()), e)
      ensures Agrees(old(View()), l) && Decent(old(View()), e) ==> Agrees(View(), Enter(l, e))
    {
      Follows(View(), l, e);
      if !up && !e.OnBoot? {
        return;
      }
      match e {
        case OnBoot(ram, save, show) =>
          if ram.Some? {
            magic, reason, fault := ram.value.magic, ram.value.reason, ram.value.fault;
          }
          up := true;
          Init(save, show, l);
        case OnPrepare(r, desc) => PrepareReset(r, desc, l);
        case OnBootloaderPrepare(r, desc) => PrepareResetBootloader(r, desc, l);
        case OnRamWrite(ram) => magic, reason, fault := ram.magic, ram.reason, ram.fault;
        case OnQuery(query) => var saved := GetSavedFault(query);
        case OnClear(op) => ClearSavedFault(op);
      }
    }

    /** Any run, with power lost anywhere. With truthful lookups a set key always has one complete record behind it,
        the one from before or the one a boot of the run found in RAM, and only a clear ends it; with RAM that is
        overlaid decently as well, fields, flash and key follow the ledger of resets. */
    method Execute(es: seq<Event>, ghost l: Ledger)
      requires Sound(View()) && HonestRun(View(), es)
      modifies this
      ensures dirty ==> IsFault(ReasonOf(Head(flash)))
      ensures dirty ==> (old(dirty) && Head(flash) == old(Head(flash))) || exists i: nat :: Lodged(old(View()), es, i, Head(flash))
      ensures old(dirty) && ClearFree(es) ==> dirty && Head(flash) == old(Head(flash))
      ensures Agrees(old(View()), l) && DecentRun(old(View()), es) ==> Agrees(View(), EnterAll(l, es))
      ensures Agrees(old(View()), l) && DecentRun(old(View()), es) && dirty ==>
        EnterAll(l, es).saved.Some? && Origin(old(View()), l, es, Head(flash), EnterAll(l, es).saved.value)
    {
      ghost var s := View();
      var i := 0;
      while i < |es|
        invariant 0 <= i <= |es|
        invariant Run(View(), es[i..]) == Run(s, es)
      {
        assert es[i..][1..] == es[i + 1..];
        Perform(es[i], l);
        i := i + 1;
      }
      RunKeeps(s, es);
      RunWhole(s, es);
      if Agrees(s, l) && DecentRun(s, es) {
        RunMatches(s, l, es);
      }
    }
  }

  lemma {:induction false} SaveKeepsRam(s: State, o: Save)
    ensures var r := SaveFault(s, o).ram;
      r.magic == s.ram.magic && r.reason == s.ram.reason && RecordOf(r) == RecordOf(s.ram)
  {
    var rec := RecordOf(s.ram);
    assert rec[4..] == s.ram.fault[4..];
  }

  lemma {:induction false} QueryKeepsRam(s: State, q: Query)
    ensures AfterQuery(s, q).ram == s.ram && AfterQuery(s, q).flash == s.flash
  {
  }

  /** A boot forgets the reset if it completes and keeps a fault it found if power is lost. */
  lemma {:induction false} BootForgets(s: State, save: Save, show: Option<Query>)
    requires s.up
    ensures var r := FaultVault.Init(s, save, show);
      && (r.up ==> r.ram.magic != Magic)
      && (!r.up && HoldsFault(s.ram) ==> HoldsFault(r.ram) && RecordOf(r.ram) == RecordOf(s.ram))
      && (s.ram.magic != Magic ==> r.ram.reason == Unknown && ReasonOf(r.ram.fault) == Unknown && r.flash == s.flash)
  {
    FieldsApart(s.ram.fault, Unknown, []);
    var s1 := s.(ram := Tidied(s.ram));
    SaveKeepsRam(s1, save);
    var s2 := if HoldsFault(s1.ram) then SaveFault(s1, save) else s1;
    if show.Some? {
      QueryKeepsRam(s2, show.value);
    }
  }

  lemma {:induction false} BootFollows(s: State, l: Ledger, save: Save, show: Option<Query>)
    requires s.up
    ensures var e := OnBoot(None, save, show);
      Agrees(s, l) && Decent(s, e) ==> Agrees(FaultVault.Init(s, save, show), Enter(l, e))
  {
    var e := OnBoot(None, save, show);
    assert PowerUp(s, None) == s;
    assert Step(s, e) == FaultVault.Init(s, save, show);
    if Agrees(s, l) && Decent(s, e) {
      BootMatches(s, l, e);
    }
  }

  lemma {:induction false} Follows(s: State, l: Ledger, e: Event)
    ensures Agrees(s, l) && Decent(s, e) ==> Agrees(Step(s, e), Enter(l, e))
  {
    if Agrees(s, l) && Decent(s, e) {
      StepMatches(s, l, e);
    }
  }
}
