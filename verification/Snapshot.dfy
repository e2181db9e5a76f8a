/** A modem snapshot's dimensions and the combinations the guards refuse (`domain/state.ts`, `domain/guards.ts`, `domain/snapshot.ts`). */
module Snapshot {
  import opened Wrappers

  // ---------------------------------------------------------------- dimensions

  datatype IdentityConfidence = High | Medium | Low

  datatype EquipmentId =
    | Imei(value: string, confidence: IdentityConfidence)
    | Serial(value: string, confidence: IdentityConfidence)
    | NoEquipmentId

  datatype ModemIdentity = ModemIdentity(
    logicalSlotId: Option<string>,
    equipmentId: EquipmentId,
    subscriptionId: Option<string>,
    ownNumbers: Option<seq<string>>,
    runtimePath: string)

  datatype Presence = Present | Absent
  datatype SourceHealth = Live | Stale | SourceUnavailable
  datatype SimLock = UnknownLock | NoLock | SimPin | SimPuk | SimPin2 | SimPuk2 | NetPers | PermanentlyBlocked
  datatype SimSlot = SimSlot(index: nat, occupied: bool, active: bool, lock: SimLock)
  datatype RadioPower = PowerUnknown | PowerOff | PowerLow | PowerOn
  datatype MmState =
    | MmFailed | MmUnknown | Initializing | Locked | Disabled | Disabling | Enabling
    | Enabled | Searching | Registered | Disconnecting | Connecting | Connected
  datatype RegistrationStatus = RegIdle | RegHome | RegSearching | RegDenied | RegUnknown | RegRoaming
  datatype Rat = Gsm | Umts | Lte | Nr5g
  datatype Registration = Registration(status: RegistrationStatus, activeRats: set<Rat>)
  datatype NmActivation =
    | NmUnmanaged | NmUnavailable | NmDisconnected | NmActivating | NmActivated | NmDeactivating | NmFailed
  datatype DataInterface = DataInterface(present: bool, name: Option<string>)
  datatype ReconcileStatus = Converged | Reconciling | Pending | Divergent | Unsupported
  datatype RecoveryStage = Idle | Attributing | NmCycle | MmCycle | Reset | PowerCycle | Cooldown | Exhausted
  datatype RecoveryState = RecoveryState(stage: RecoveryStage, attempts: int, cooldownUntil: Option<nat>)

  /** Everything but the revision. */
  datatype Facts = Facts(
    identity: ModemIdentity,
    presence: Presence,
    sourceHealth: SourceHealth,
    simSlots: seq<SimSlot>,
    radioPower: RadioPower,
    mmState: MmState,
    registration: Registration,
    nmActivation: NmActivation,
    dataInterface: DataInterface,
    reconcileStatus: ReconcileStatus,
    recoveryState: RecoveryState)

  datatype CellularSnapshot = CellularSnapshot(facts: Facts, revision: nat)

  // ---------------------------------------------------------------- guards

  datatype ImpossibleStateCode =
    | RegisteredWhileAbsent | RegisteredRadioOff | RegisteredEmptyRatSet
    | ActiveStateWhileAbsent | RadioOffWhileActive
    | NmActivatedWhileAbsent | NmActivatedWithoutInterface | NmActivatedWithoutMmConnected
    | LockedSimInEmptySlot | MultipleActiveSimSlots | MmLockedWithoutSimLock
    | DataInterfaceNameWithoutPresence
    | RecoveryAttemptsNegative | RecoveryCooldownStageMismatch | RecoveryIdleWithAttempts

  const MAX_SAFE_INTEGER := 0x1F_FFFF_FFFF_FFFF

  predicate IsRegistered(status: RegistrationStatus) {
    status.RegHome? || status.RegRoaming?
  }

  predicate RequiresRadio(state: MmState) {
    state in {Enabled, Searching, Registered, Connecting, Connected, Disconnecting}
  }

  predicate RequiresCard(lock: SimLock) {
    lock in {SimPin, SimPuk, SimPin2, SimPuk2, NetPers, PermanentlyBlocked}
  }

  function CheckRegistration(s: Facts): Option<ImpossibleStateCode> {
    if !IsRegistered(s.registration.status) then None
    else if s.presence.Absent? then Some(RegisteredWhileAbsent)
    else if s.radioPower.PowerOff? then Some(RegisteredRadioOff)
    else if |s.registration.activeRats| == 0 then Some(RegisteredEmptyRatSet)
    else None
  }

  predicate RadioIsOnTheAir(s: Facts) {
    RequiresRadio(s.mmState) || s.registration.status.RegSearching? || s.nmActivation.NmActivating? || s.nmActivation.NmActivated?
  }

  function CheckRadioAndPresence(s: Facts): Option<ImpossibleStateCode> {
    if RequiresRadio(s.mmState) && s.presence.Absent? then Some(ActiveStateWhileAbsent)
    else if s.radioPower.PowerOff? && RadioIsOnTheAir(s) then Some(RadioOffWhileActive)
    else None
  }

  function CheckNmActivation(s: Facts): Option<ImpossibleStateCode> {
    if !s.nmActivation.NmActivated? then None
    else if s.presence.Absent? then Some(NmActivatedWhileAbsent)
    else if !s.dataInterface.present then Some(NmActivatedWithoutInterface)
    else if !s.mmState.Connected? then Some(NmActivatedWithoutMmConnected)
    else None
  }

  function ActiveSlots(slots: seq<SimSlot>): nat {
    if slots == [] then 0
    else ActiveSlots(slots[..|slots| - 1]) + (if slots[|slots| - 1].active then 1 else 0)
  }

  predicate LockedEmptySlot(slot: SimSlot) {
    !slot.occupied && RequiresCard(slot.lock)
  }

  predicate LockedCard(slot: SimSlot) {
    slot.occupied && RequiresCard(slot.lock)
  }

  function SimSlotsViolation(s: Facts): Option<ImpossibleStateCode> {
    if exists i :: 0 <= i < |s.simSlots| && LockedEmptySlot(s.simSlots[i]) then Some(LockedSimInEmptySlot)
    else if ActiveSlots(s.simSlots) > 1 then Some(MultipleActiveSimSlots)
    else if s.mmState.Locked? && forall i :: 0 <= i < |s.simSlots| ==> !LockedCard(s.simSlots[i]) then Some(MmLockedWithoutSimLock)
    else None
  }

  /** One pass over the slots with a counter and a flag. */
  method CheckSimSlots(s: Facts) returns (v: Option<ImpossibleStateCode>)
    ensures v == SimSlotsViolation(s)
  {
    var activeCount := 0;
    var hasLockedCard := false;
    for i := 0 to |s.simSlots|
      invariant activeCount == ActiveSlots(s.simSlots[..i])
      invariant hasLockedCard <==> exists j :: 0 <= j < i && LockedCard(s.simSlots[j])
      invariant forall j :: 0 <= j < i ==> !LockedEmptySlot(s.simSlots[j])
    {
      var slot := s.simSlots[i];
      assert s.simSlots[..i + 1][..i] == s.simSlots[..i];
      if slot.active {
        activeCount := activeCount + 1;
      }
      if !slot.occupied && RequiresCard(slot.lock) {
        assert LockedEmptySlot(s.simSlots[i]);
        return Some(LockedSimInEmptySlot);
      }
      if slot.occupied && RequiresCard(slot.lock) {
        assert LockedCard(s.simSlots[i]);
        hasLockedCard := true;
      }
    }
    assert s.simSlots[..|s.simSlots|] == s.simSlots;
    if activeCount > 1 {
      return Some(MultipleActiveSimSlots);
    }
    if s.mmState.Locked? && !hasLockedCard {
      return Some(MmLockedWithoutSimLock);
    }
    v := None;
  }

  function CheckDataInterface(s: Facts): Option<ImpossibleStateCode> {
    if !s.dataInterface.present && s.dataInterface.name.Some? then Some(DataInterfaceNameWithoutPresence) else None
  }

  function CheckRecovery(s: Facts): Option<ImpossibleStateCode> {
    var r := s.recoveryState;
    if !(0 <= r.attempts <= MAX_SAFE_INTEGER) then Some(RecoveryAttemptsNegative)
    else if r.cooldownUntil.Some? != r.stage.Cooldown? then Some(RecoveryCooldownStageMismatch)
    else if r.stage.Idle? && r.attempts != 0 then Some(RecoveryIdleWithAttempts)
    else None
  }

  function FirstOf(a: Option<ImpossibleStateCode>, b: Option<ImpossibleStateCode>): Option<ImpossibleStateCode> {
    if a.Some? then a else b
  }

  /** The first violation of the six rules, if there is one. */
  function CheckSnapshot(s: Facts): Option<ImpossibleStateCode> {
    FirstOf(CheckRegistration(s), FirstOf(CheckRadioAndPresence(s), FirstOf(CheckNmActivation(s),
    FirstOf(SimSlotsViolation(s), FirstOf(CheckDataInterface(s), CheckRecovery(s))))))
  }

  // ---------------------------------------------------------------- what the guards mean

  /** The physical reading of a snapshot: every cross-dimension dependency it must respect. */
  ghost predicate Possible(s: Facts) {
    && (IsRegistered(s.registration.status) ==>
          s.presence.Present? && !s.radioPower.PowerOff? && s.registration.activeRats != {})
    && (RequiresRadio(s.mmState) ==> s.presence.Present?)
    && (s.radioPower.PowerOff? ==> !RadioIsOnTheAir(s))
    && (s.nmActivation.NmActivated? ==> s.presence.Present? && s.dataInterface.present && s.mmState.Connected?)
    && (forall i :: 0 <= i < |s.simSlots| && RequiresCard(s.simSlots[i].lock) ==> s.simSlots[i].occupied)
    && (forall i, j :: 0 <= i < j < |s.simSlots| ==> !(s.simSlots[i].active && s.simSlots[j].active))
    && (s.mmState.Locked? ==> exists i :: 0 <= i < |s.simSlots| && LockedCard(s.simSlots[i]))
    && (s.dataInterface.name.Some? ==> s.dataInterface.present)
    && 0 <= s.recoveryState.attempts <= MAX_SAFE_INTEGER
    && (s.recoveryState.cooldownUntil.Some? <==> s.recoveryState.stage.Cooldown?)
    && (s.recoveryState.stage.Idle? ==> s.recoveryState.attempts == 0)
  }

  lemma {:induction false} ActiveSlotsCount(slots: seq<SimSlot>)
    ensures ActiveSlots(slots) == 0 <==> forall i :: 0 <= i < |slots| ==> !slots[i].active
    ensures ActiveSlots(slots) <= 1 <==> forall i, j :: 0 <= i < j < |slots| ==> !(slots[i].active && slots[j].active)
  {
    if slots != [] {
      var front := slots[..|slots| - 1];
      ActiveSlotsCount(front);
      assert forall i :: 0 <= i < |front| ==> front[i] == slots[i];
    }
  }

  /** The guards pass exactly the possible snapshots. */
  lemma GuardsExact(s: Facts)
    ensures CheckSnapshot(s).None? <==> Possible(s)
  {
    ActiveSlotsCount(s.simSlots);
    if CheckSnapshot(s).None? {
      forall i | 0 <= i < |s.simSlots| && RequiresCard(s.simSlots[i].lock) ensures s.simSlots[i].occupied {
        assert !LockedEmptySlot(s.simSlots[i]);
      }
    }
  }

  /** The combination that `code` names, said of the facts alone. */
  ghost predicate Breaks(s: Facts, code: ImpossibleStateCode) {
    var registered := s.registration.status.RegHome? || s.registration.status.RegRoaming?;
    var active := s.mmState in {Enabled, Searching, Registered, Disconnecting, Connecting, Connected};
    match code
    case RegisteredWhileAbsent => registered && s.presence.Absent?
    case RegisteredRadioOff => registered && s.radioPower.PowerOff?
    case RegisteredEmptyRatSet => registered && s.registration.activeRats == {}
    case ActiveStateWhileAbsent => active && s.presence.Absent?
    case RadioOffWhileActive =>
      && s.radioPower.PowerOff?
      && (active || s.registration.status.RegSearching? || s.nmActivation.NmActivating? || s.nmActivation.NmActivated?)
    case NmActivatedWhileAbsent => s.nmActivation.NmActivated? && s.presence.Absent?
    case NmActivatedWithoutInterface => s.nmActivation.NmActivated? && !s.dataInterface.present
    case NmActivatedWithoutMmConnected => s.nmActivation.NmActivated? && s.mmState != Connected
    case LockedSimInEmptySlot =>
      exists i :: 0 <= i < |s.simSlots| && !s.simSlots[i].occupied && s.simSlots[i].lock != NoLock && s.simSlots[i].lock != UnknownLock
    case MultipleActiveSimSlots => exists i, j :: 0 <= i < j < |s.simSlots| && s.simSlots[i].active && s.simSlots[j].active
    case MmLockedWithoutSimLock =>
      && s.mmState.Locked?
      && !exists i :: 0 <= i < |s.simSlots| && s.simSlots[i].occupied && s.simSlots[i].lock != NoLock && s.simSlots[i].lock != UnknownLock
    case DataInterfaceNameWithoutPresence => !s.dataInterface.present && s.dataInterface.name.Some?
    case RecoveryAttemptsNegative => s.recoveryState.attempts < 0 || s.recoveryState.attempts > MAX_SAFE_INTEGER
    case RecoveryCooldownStageMismatch => s.recoveryState.cooldownUntil.Some? != s.recoveryState.stage.Cooldown?
    case RecoveryIdleWithAttempts => s.recoveryState.stage.Idle? && s.recoveryState.attempts != 0
  }

  /** The order in which combinations are looked for. */
  function Turn(code: ImpossibleStateCode): nat {
    match code
    case RegisteredWhileAbsent => 0
    case RegisteredRadioOff => 1
    case RegisteredEmptyRatSet => 2
    case ActiveStateWhileAbsent => 3
    case RadioOffWhileActive => 4
    case NmActivatedWhileAbsent => 5
    case NmActivatedWithoutInterface => 6
    case NmActivatedWithoutMmConnected => 7
    case LockedSimInEmptySlot => 8
    case MultipleActiveSimSlots => 9
    case MmLockedWithoutSimLock => 10
    case DataInterfaceNameWithoutPresence => 11
    case RecoveryAttemptsNegative => 12
    case RecoveryCooldownStageMismatch => 13
    case RecoveryIdleWithAttempts => 14
  }

  lemma SlotsBreak(s: Facts)
    ensures Breaks(s, LockedSimInEmptySlot) <==> exists i :: 0 <= i < |s.simSlots| && LockedEmptySlot(s.simSlots[i])
    ensures Breaks(s, MultipleActiveSimSlots) <==> ActiveSlots(s.simSlots) > 1
    ensures Breaks(s, MmLockedWithoutSimLock) <==>
            s.mmState.Locked? && forall i :: 0 <= i < |s.simSlots| ==> !LockedCard(s.simSlots[i])
  {
    ActiveSlotsCount(s.simSlots);
    forall i | 0 <= i < |s.simSlots| && LockedEmptySlot(s.simSlots[i]) ensures Breaks(s, LockedSimInEmptySlot) {
      assert !s.simSlots[i].occupied;
    }
  }

  /** The guards name the first of the impossible combinations that a snapshot has, and none exactly if it has none. */
  lemma CodeExact(s: Facts, code: ImpossibleStateCode)
    ensures CheckSnapshot(s) == Some(code) <==>
            Breaks(s, code) && forall other :: Breaks(s, other) ==> Turn(code) <= Turn(other)
    ensures CheckSnapshot(s) == None <==> forall other :: !Breaks(s, other)
  {
    SlotsBreak(s);
    var found := CheckSnapshot(s);
    if found.Some? {
      FirstBroken(s, found.value);
    } else {
      NoneBroken(s);
    }
  }

  lemma NoneBroken(s: Facts)
    requires CheckSnapshot(s).None?
    ensures forall code :: !Breaks(s, code)
  {
    SlotsBreak(s);
  }

  lemma FirstBroken(s: Facts, code: ImpossibleStateCode)
    requires CheckSnapshot(s) == Some(code)
    ensures Breaks(s, code) && forall other :: Breaks(s, other) ==> Turn(code) <= Turn(other)
    ensures forall other :: Turn(other) == Turn(code) ==> other == code
  {
    SlotsBreak(s);
  }

  /** `createSnapshot`: a value that passed the guards, or the code of the rule it breaks. */
  function CreateSnapshot(facts: Facts, revision: nat): (r: Result<CellularSnapshot, ImpossibleStateCode>)
    ensures r.Ok? ==> r.value == CellularSnapshot(facts, revision)
  {
    match CheckSnapshot(facts)
    case Some(code) => Err(code)
    case None => Ok(CellularSnapshot(facts, revision))
  }

  /** `markSourceUnavailable`: the data goes stale, one revision on; presence and every other fact stay. */
  function MarkSourceUnavailable(prev: CellularSnapshot): CellularSnapshot {
    CellularSnapshot(prev.facts.(sourceHealth := SourceUnavailable), prev.revision + 1)
  }

  /** No rule looks at source health, so a snapshot that passed the guards can always be marked unavailable. */
  lemma MarkingNeverThrows(prev: CellularSnapshot)
    ensures CheckSnapshot(MarkSourceUnavailable(prev).facts) == CheckSnapshot(prev.facts)
  {
    var next := MarkSourceUnavailable(prev).facts;
    assert next.simSlots == prev.facts.simSlots;
  }
}
