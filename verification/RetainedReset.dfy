/**
  Reset information in dedicated retained RAM: the record stays in RAM until the application
  clears it.
 */
module RetainedReset {
  import opened Words
  import opened FaultRecord
  import V = FaultVault

  datatype Event =
    | OnBoot
    | OnPrepare(note: V.Note)
    | OnBootloaderPrepare(note: V.Note)
    | OnContext(fault: Record)
    | OnClear

  // ----- the code's functions on values -----

  /** All zeros with an unknown reason. */
  function NoFault(): (r: Record) {
    WithReason(seq(RecordSize, _ => 0), Unknown)
  }

  lemma {:induction false} NoFaultIs(i: nat)
    requires 4 <= i < RecordSize
    ensures ReasonOf(NoFault()) == 1 && NoFault()[i] == 0
  {
    FieldsApart(seq(RecordSize, _ => 0), Unknown, []);
  }

  function Init(ram: V.Ram): (r: V.Ram) {
    if ram.magic != Magic then V.Ram(0, Unknown, NoFault()) else ram.(magic := 0)
  }

  function SetRam(ram: V.Ram, n: V.Note, replace: bool): (r: V.Ram) {
    var fault :=
      if IsFault(n.reason) && (ReasonOf(ram.fault) == Unknown || replace)
      then V.Described(WithReason(ram.fault, n.reason), n.desc) else ram.fault;
    V.Ram(Magic, n.reason, fault)
  }

  function Prepare(ram: V.Ram, n: V.Note): (r: V.Ram) {
    if ram.magic != Magic then SetRam(ram, n, false) else ram
  }

  function BootloaderPrepare(ram: V.Ram, n: V.Note): (r: V.Ram) {
    if ram.magic != Magic || IsFault(n.reason) then SetRam(ram, n, true) else ram
  }

  /** What a query hands out. */
  function Answer(ram: V.Ram): (r: Option<Record>) {
    if IsFault(ReasonOf(ram.fault)) then Some(ram.fault) else None
  }

  function Step(ram: V.Ram, e: Event): (r: V.Ram) {
    match e
    case OnBoot => Init(ram)
    case OnPrepare(n) => Prepare(ram, n)
    case OnBootloaderPrepare(n) => BootloaderPrepare(ram, n)
    case OnContext(fault) => ram.(fault := fault)
    case OnClear => ram.(fault := NoFault())
  }

  function Run(ram: V.Ram, es: seq<Event>): (r: V.Ram)
    decreases |es|
  {
    if es == [] then ram else Step(Run(ram, es[..|es| - 1]), es[|es| - 1])
  }

  // ----- the history of notes -----

  /** The first reset accepted since boot, and the fault that should be on record. */
  datatype Ledger = Ledger(pending: Option<V.Note>, saved: Option<V.Note>)

  function Enter(l: Ledger, e: Event): (r: Ledger) {
    match e
    case OnBoot => Ledger(None, if l.pending.Some? then l.saved else None)
    case OnPrepare(n) =>
      if l.pending.Some? then l
      else Ledger(Some(n), if IsFault(n.reason) && l.saved.None? then Some(n) else l.saved)
    case OnBootloaderPrepare(n) =>
      if IsFault(n.reason) then Ledger(Some(n), Some(n))
      else if l.pending.Some? then l
      else l.(pending := Some(n))
    case OnContext(_) => l
    case OnClear => l.(saved := None)
  }

  /** The ledger after a history that begins with RAM that holds no reset. */
  function After(es: seq<Event>): (r: Ledger)
    decreases |es|
  {
    if es == [] then Ledger(None, None) else Enter(After(es[..|es| - 1]), es[|es| - 1])
  }

  predicate Agrees(ram: V.Ram, l: Ledger) {
    && (l.pending.Some? <==> ram.magic == Magic)
    && (l.pending.Some? ==> ram.reason == l.pending.value.reason)
    && (l.saved.None? ==> ReasonOf(ram.fault) == Unknown)
    && (l.saved.Some? ==>
          && IsFault(l.saved.value.reason)
          && ReasonOf(ram.fault) == l.saved.value.reason
          && V.Matches(ram.fault, l.saved.value.desc))
  }

  /** The fault handler fills in the record around its reason and description. */
  predicate Decent(ram: V.Ram, e: Event) {
    e.OnContext? ==> ReasonOf(e.fault) == ReasonOf(ram.fault) && DescOf(e.fault) == DescOf(ram.fault)
  }

  predicate DecentRun(ram: V.Ram, es: seq<Event>) {
    forall i :: 0 <= i < |es| ==> Decent(Run(ram, es[..i]), es[i])
  }

  lemma {:induction false} NoFaultReason()
    ensures ReasonOf(NoFault()) == Unknown
  {
    FieldsApart(seq(RecordSize, _ => 0), Unknown, []);
  }

  lemma {:induction false} SetAgrees(ram: V.Ram, l: Ledger, n: V.Note, replace: bool)
    requires Agrees(ram, l)
    ensures Agrees(SetRam(ram, n, replace),
      Ledger(Some(n), if IsFault(n.reason) && (l.saved.None? || replace) then Some(n) else l.saved))
  {
    var rec := WithReason(ram.fault, n.reason);
    FieldsApart(ram.fault, n.reason, []);
    if n.desc.Some? {
      FieldsApart(rec, n.reason, n.desc.value);
    }
  }

  lemma {:induction false} StepAgrees(ram: V.Ram, l: Ledger, e: Event)
    requires Agrees(ram, l) && Decent(ram, e)
    ensures Agrees(Step(ram, e), Enter(l, e))
  {
    NoFaultReason();
    if e.OnPrepare? && l.pending.None? {
      SetAgrees(ram, l, e.note, false);
    } else if e.OnBootloaderPrepare? {
      SetAgrees(ram, l, e.note, true);
    }
  }

  /** After the first boot the RAM follows the ledger, over any run in which it is retained. */
  lemma {:induction false} RunAgrees(ram: V.Ram, es: seq<Event>)
    requires ram.magic != Magic && DecentRun(Init(ram), es)
    ensures Agrees(Run(Init(ram), es), After(es))
    decreases |es|
  {
    if es == [] {
      NoFaultReason();
    } else {
      var k := |es| - 1;
      forall i | 0 <= i < k
        ensures Decent(Run(Init(ram), es[..k][..i]), es[..k][i])
      {
        assert es[..k][..i] == es[..i];
      }
      RunAgrees(ram, es[..k]);
      StepAgrees(Run(Init(ram), es[..k]), After(es[..k]), es[k]);
    }
  }

  /** So a query answers exactly when a fault is on record, with its reason and description. */
  lemma {:induction false} AnswersTheLedger(ram: V.Ram, es: seq<Event>)
    requires ram.magic != Magic && DecentRun(Init(ram), es)
    ensures var r, l := Run(Init(ram), es), After(es);
      && (Answer(r).Some? <==> l.saved.Some?)
      && (l.saved.Some? ==>
            && ReasonOf(Answer(r).value) == l.saved.value.reason
            && V.Matches(Answer(r).value, l.saved.value.desc))
  {
    RunAgrees(ram, es);
  }

  // ----- what the ledger says -----

  /** Event i puts note n on record: a bootloader fault, or an accepted fault while none is on record. */
  predicate Lodges(es: seq<Event>, i: nat, n: V.Note)
    requires i < |es|
  {
    && IsFault(n.reason)
    && (|| es[i] == OnBootloaderPrepare(n)
        || (es[i] == OnPrepare(n) && After(es[..i]) == Ledger(None, None)))
  }

  /** Event i ends the record: a clear, a boot that no prepared reset came before, or a bootloader fault. */
  predicate Ends(es: seq<Event>, i: nat)
    requires i < |es|
  {
    match es[i]
    case OnClear => true
    case OnBoot => After(es[..i]).pending.None?
    case OnBootloaderPrepare(n) => IsFault(n.reason)
    case _ => false
  }

  /** Note n was lodged at event i and nothing has ended it. */
  predicate Standing(es: seq<Event>, i: nat, n: V.Note) {
    i < |es| && Lodges(es, i, n) && forall j :: i < j < |es| ==> !Ends(es, j)
  }

  lemma {:induction false} StandingShorter(es: seq<Event>, i: nat, n: V.Note)
    requires |es| > 0 && i < |es| - 1
    ensures Standing(es, i, n) <==> Standing(es[..|es| - 1], i, n) && !Ends(es, |es| - 1)
  {
    var fs := es[..|es| - 1];
    assert fs[..i] == es[..i];
    assert Lodges(fs, i, n) <==> Lodges(es, i, n);
    forall j | i < j < |fs|
      ensures Ends(fs, j) <==> Ends(es, j)
    {
      assert fs[..j] == es[..j];
    }
  }

  lemma {:induction false} StandingIsSaved(es: seq<Event>, i: nat, n: V.Note)
    requires Standing(es, i, n)
    ensures After(es).saved == Some(n)
    decreases |es|
  {
    if i < |es| - 1 {
      StandingShorter(es, i, n);
      StandingIsSaved(es[..|es| - 1], i, n);
    }
  }

  lemma {:induction false} SavedIsStanding(es: seq<Event>) returns (i: nat)
    requires After(es).saved.Some?
    ensures Standing(es, i, After(es).saved.value)
    decreases |es|
  {
    var k := |es| - 1;
    var n := After(es).saved.value;
    if Lodges(es, k, n) {
      i := k;
    } else {
      i := SavedIsStanding(es[..k]);
      StandingShorter(es, i, n);
    }
  }

  /** The fault on record is the first accepted since the record was last ended. */
  lemma {:induction false} SavedIsFirst(es: seq<Event>, n: V.Note)
    ensures After(es).saved == Some(n) <==> exists i: nat :: Standing(es, i, n)
  {
    if After(es).saved == Some(n) {
      var i := SavedIsStanding(es);
    }
    if i: nat :| Standing(es, i, n) {
      StandingIsSaved(es, i, n);
    }
  }

  /** Once a reset is prepared, only a boot or a bootloader fault changes the reset reason. */
  lemma {:induction false} FirstReasonStays(es: seq<Event>, fs: seq<Event>)
    requires After(es).pending.Some?
    requires forall i :: 0 <= i < |fs| ==> !fs[i].OnBoot? && !(fs[i].OnBootloaderPrepare? && IsFault(fs[i].note.reason))
    ensures After(es + fs).pending == After(es).pending
    decreases |fs|
  {
    if fs == [] {
      assert es + fs == es;
    } else {
      var k := |fs| - 1;
      FirstReasonStays(es, fs[..k]);
      assert (es + fs)[..|es + fs| - 1] == es + fs[..k];
    }
  }

  /** The first reset prepared after a boot is the one on record. */
  lemma {:induction false} FirstPrepareTaken(es: seq<Event>, n: V.Note)
    ensures After(es + [OnBoot, OnPrepare(n)]).pending == Some(n)
    ensures After(es + [OnBoot, OnBootloaderPrepare(n)]).pending == Some(n)
  {
    var a, b, c := es + [OnBoot], es + [OnBoot, OnPrepare(n)], es + [OnBoot, OnBootloaderPrepare(n)];
    assert a[..|es|] == es && b[..|es| + 1] == a && c[..|es| + 1] == a;
  }

  /** A boot forgets the reset reason, and the next reset prepared sets it, whatever RAM held before. */
  lemma {:induction false} PrepareSetsReason(ram: V.Ram, n: V.Note)
    requires n.reason <= 8
    ensures ResetReason(Init(ram)) == Unknown
    ensures ResetReason(Prepare(Init(ram), n)) == n.reason && ResetReason(BootloaderPrepare(Init(ram), n)) == n.reason
  {
  }

  /** A fault in the bootloader replaces both the reset reason and the record, whatever RAM held before. */
  lemma {:induction false} BootloaderFaultReplaces(ram: V.Ram, n: V.Note)
    requires IsFault(n.reason)
    ensures var r := BootloaderPrepare(ram, n);
      && ResetReason(r) == n.reason
      && Answer(r).Some?
      && ReasonOf(Answer(r).value) == n.reason
      && V.Matches(Answer(r).value, n.desc)
      && (n.desc.None? ==> DescOf(Answer(r).value) == DescOf(ram.fault))
  {
    var rec := WithReason(ram.fault, n.reason);
    FieldsApart(ram.fault, n.reason, []);
    if n.desc.Some? {
      FieldsApart(rec, n.reason, n.desc.value);
    }
  }

  /** What nl_reset_info_get_reset_reason reports. */
  function ResetReason(ram: V.Ram): (r: Word) {
    if ram.magic == Magic && (IsReset(ram.reason) || IsFault(ram.reason)) then ram.reason else Unknown
  }

  /** The reason of the first reset accepted since boot, if it is a valid one. */
  function PendingReason(l: Ledger): (r: Word) {
    if l.pending.Some? && (IsReset(l.pending.value.reason) || IsFault(l.pending.value.reason))
    then l.pending.value.reason else Unknown
  }

  /** A boot that keeps RAM keeps the saved fault exactly when there is none or a reset was prepared. */
  lemma {:induction false} UnpreparedBootKeepsExactly(ram: V.Ram)
    ensures Answer(Init(ram)) == Answer(ram) <==> Answer(ram).None? || ram.magic == Magic
  {
    NoFaultReason();
  }

  /** A fault is prepared and the device boots; the fault is there. It boots again with RAM kept, and the fault,
      which nobody cleared, is gone. */
  lemma {:induction false} UnpreparedBootLoses(ram: V.Ram, n: V.Note)
    requires ram.magic != Magic && IsFault(n.reason)
    ensures var r := Run(Init(ram), [OnPrepare(n), OnBoot]);
      Answer(r).Some? && ReasonOf(Answer(r).value) == n.reason && V.Matches(Answer(r).value, n.desc)
    ensures Answer(Run(Init(ram), [OnPrepare(n), OnBoot, OnBoot])).None?
  {
    var a, b, c := [OnPrepare(n)], [OnPrepare(n), OnBoot], [OnPrepare(n), OnBoot, OnBoot];
    assert a[..0] == [] && b[..1] == a && c[..2] == b;
    NoFaultReason();
    var r := Init(ram);
    assert Run(r, a) == SetRam(r, n, false);
    assert Agrees(r, Ledger(None, None));
    SetAgrees(r, Ledger(None, None), n, false);
    assert Run(r, b) == Run(r, a).(magic := 0);
  }

  // ----- the code -----

  class ResetInfo {
    var magic: Word
    var reason: Word
    var fault: Record

    function View(): (r: V.Ram)
      reads this
    {
      V.Ram(magic, reason, fault)
    }

    method InitReset()
      modifies this
      ensures View() == Init(old(View()))
    {
      if magic != Magic {
        reason := Unknown;
        ClearSavedFault();
      }
      magic := 0;
    }

    method SetReset(n: V.Note, replace: bool)
      modifies this
      ensures View() == SetRam(old(View()), n, replace)
    {
      magic := Magic;
      reason := n.reason;
      if IsFault(n.reason) {
        if ReasonOf(fault) == Unknown || replace {
          fault := WithReason(fault, n.reason);
          if n.desc.Some? {
            fault := WithDesc(fault, n.desc.value);
          }
        }
      }
    }

    method PrepareReset(n: V.Note)
      modifies this
      ensures View() == Prepare(old(View()), n)
    {
      if magic != Magic {
        SetReset(n, false);
      }
    }

    method PrepareResetBootloader(n: V.Note)
      modifies this
      ensures View() == BootloaderPrepare(old(View()), n)
    {
      if magic != Magic || IsFault(n.reason) {
        SetReset(n, true);
      }
    }

    method GetSavedFault() returns (saved: Option<Record>)
      ensures saved == Answer(View())
    {
      saved := None;
      if IsFault(ReasonOf(fault)) {
        saved := Some(fault);
      }
    }

    method GetResetReason() returns (r: Word)
      ensures r == ResetReason(View())
      ensures forall l :: Agrees(View(), l) ==> r == PendingReason(l)
    {
      r := Unknown;
      if magic == Magic && (IsReset(reason) || IsFault(reason)) {
        r := reason;
      }
    }

    method ClearSavedFault()
      modifies this`fault
      ensures fault == NoFault()
    {
      fault := seq(RecordSize, _ => 0);
      fault := WithReason(fault, Unknown);
    }

    method Perform(e: Event)
      modifies this
      ensures View() == Step(old(View()), e)
    {
      match e {
        case OnBoot => InitReset();
        case OnPrepare(n) => PrepareReset(n);
        case OnBootloaderPrepare(n) => PrepareResetBootloader(n);
        case OnContext(rec) => fault := rec;
        case OnClear => ClearSavedFault();
      }
    }

    /** A first boot without the magic word and then any run: the saved fault is the first since the last clear. */
    method Execute(es: seq<Event>) returns (saved: Option<Record>)
      requires magic != Magic && DecentRun(Init(View()), es)
      modifies this
      ensures Agrees(View(), After(es))
      ensures saved.Some? <==> exists i: nat, n :: Standing(es, i, n)
      ensures forall i: nat, n :: Standing(es, i, n) ==>
        saved.Some? && ReasonOf(saved.value) == n.reason && V.Matches(saved.value, n.desc)
    {
      ghost var start := View();
      InitReset();
      var i := 0;
      while i < |es|
        invariant 0 <= i <= |es|
        invariant View() == Run(Init(start), es[..i])
      {
        Perform(es[i]);
        i := i + 1;
        assert es[..i][..i - 1] == es[..i - 1];
      }
      assert es[..i] == es;
      RunAgrees(start, es);
      saved := GetSavedFault();
      ghost var l := After(es);
      forall k: nat, n | Standing(es, k, n)
        ensures l.saved == Some(n)
      {
        SavedIsFirst(es, n);
      }
      if l.saved.Some? {
        SavedIsFirst(es, l.saved.value);
      }
    }
  }
}
