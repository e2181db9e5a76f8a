/** From a decoded ModemManager object tree to snapshot facts (`backend/mapping.ts`, `backend/managed-objects.ts`). */
module Mapping {
  import opened Wrappers
  import opened Snapshot
  import opened JsonText
  import Codec

  // ---------------------------------------------------------------- the decoded tree

  /** A property value; `Other` is any value that is no string, whole number or array. */
  datatype Value = Text(s: string) | Number(n: int) | Values(items: seq<Value>) | Other

  datatype Property = Property(name: string, value: Value)
  datatype Interface = Interface(name: string, props: seq<Property>)
  datatype Object = Object(path: string, interfaces: seq<Interface>)
  type Tree = seq<Object>

  const MODEM_IFACE := "org.freedesktop.ModemManager1.Modem"
  const MODEM3GPP_IFACE := "org.freedesktop.ModemManager1.Modem.Modem3gpp"
  const SIM_IFACE := "org.freedesktop.ModemManager1.Sim"

  function FindObject(tree: Tree, path: string): Option<Object> {
    if tree == [] then None else if tree[0].path == path then Some(tree[0]) else FindObject(tree[1..], path)
  }

  function FindByName(interfaces: seq<Interface>, name: string): Option<seq<Property>> {
    if interfaces == [] then None
    else if interfaces[0].name == name then Some(interfaces[0].props)
    else FindByName(interfaces[1..], name)
  }

  function FindInterface(tree: Tree, path: string, iface: string): Option<seq<Property>> {
    match FindObject(tree, path)
    case None => None
    case Some(o) => FindByName(o.interfaces, iface)
  }

  /** Object paths that carry a given interface, in wire order. */
  function PathsWithInterface(tree: Tree, iface: string): seq<string> {
    if tree == [] then []
    else (if FindByName(tree[0].interfaces, iface).Some? then [tree[0].path] else []) + PathsWithInterface(tree[1..], iface)
  }

  function ModemPaths(tree: Tree): seq<string> {
    PathsWithInterface(tree, MODEM_IFACE)
  }

  function PropValueIn(props: seq<Property>, name: string): Option<Value> {
    if props == [] then None else if props[0].name == name then Some(props[0].value) else PropValueIn(props[1..], name)
  }

  function PropValue(props: Option<seq<Property>>, name: string): Option<Value> {
    if props.None? then None else PropValueIn(props.value, name)
  }

  function StringProp(props: Option<seq<Property>>, name: string): Option<string> {
    match PropValue(props, name)
    case Some(Text(s)) => Some(s)
    case _ => None
  }

  function NumberProp(props: Option<seq<Property>>, name: string): Option<int> {
    match PropValue(props, name)
    case Some(Number(n)) => Some(n)
    case _ => None
  }

  /** Members that are no strings are dropped. */
  function StringsAmong(items: seq<Value>): seq<string> {
    if items == [] then [] else (if items[0].Text? then [items[0].s] else []) + StringsAmong(items[1..])
  }

  function StringArrayProp(props: Option<seq<Property>>, name: string): Option<seq<string>> {
    match PropValue(props, name)
    case Some(Values(items)) => Some(StringsAmong(items))
    case _ => None
  }

  function FollowObjectPath(tree: Tree, props: Option<seq<Property>>, name: string, iface: string): Option<seq<Property>> {
    match PropValue(props, name)
    case Some(Text(target)) => FindInterface(tree, target, iface)
    case _ => None
  }

  // ---------------------------------------------------------------- one modem

  function MapMmState(state: Option<int>): MmState {
    if state.None? then MmUnknown
    else if state.value == -1 then MmFailed
    else if state.value == 1 then Initializing
    else if state.value == 2 then Locked
    else if state.value == 3 then Disabled
    else if state.value == 4 then Disabling
    else if state.value == 5 then Enabling
    else if state.value == 6 then Enabled
    else if state.value == 7 then Searching
    else if state.value == 8 then Registered
    else if state.value == 9 then Disconnecting
    else if state.value == 10 then Connecting
    else if state.value == 11 then Connected
    else MmUnknown
  }

  function MapRadioPower(power: Option<int>): RadioPower {
    if power == Some(1) then PowerOff
    else if power == Some(2) then PowerLow
    else if power == Some(3) then PowerOn
    else PowerUnknown
  }

  function ReconcilePower(power: RadioPower, state: MmState): RadioPower {
    var onTheAir := state in {Enabled, Searching, Registered, Connecting, Connected, Disconnecting};
    if onTheAir && (power.PowerUnknown? || power.PowerOff?) then PowerOn else power
  }

  function TrimStart(s: string): string {
    if s != "" && Codec.IsTrimSpace(s[0]) then TrimStart(s[1..]) else s
  }

  function TrimEnd(s: string): string {
    if s != "" && Codec.IsTrimSpace(s[|s| - 1]) then TrimEnd(s[..|s| - 1]) else s
  }

  function Trim(s: string): string {
    TrimEnd(TrimStart(s))
  }

  /** A blank or all-zeros IMEI is ambiguous; 15 or 16 digits are canonical. */
  function GradeImei(value: string): IdentityConfidence {
    var trimmed := Trim(value);
    if forall i :: 0 <= i < |trimmed| ==> trimmed[i] == '0' then Low
    else if 15 <= |trimmed| <= 16 && forall i :: 0 <= i < |trimmed| ==> '0' <= trimmed[i] <= '9' then High
    else Medium
  }

  function NonEmptyTrimmed(raw: seq<string>): seq<string> {
    if raw == [] then []
    else (if Trim(raw[0]) != "" then [Trim(raw[0])] else []) + NonEmptyTrimmed(raw[1..])
  }

  function ReadOwnNumbers(modem: Option<seq<Property>>): Option<seq<string>> {
    match StringArrayProp(modem, "OwnNumbers")
    case None => None
    case Some(raw) => if NonEmptyTrimmed(raw) == [] then None else Some(NonEmptyTrimmed(raw))
  }

  function ReadSubscriptionId(tree: Tree, path: string): Option<string> {
    var modem := FindInterface(tree, path, MODEM_IFACE);
    var iccid := StringProp(FollowObjectPath(tree, modem, "Sim", SIM_IFACE), "SimIdentifier");
    if iccid == Some("") then None else iccid
  }

  function OrElse(a: Option<string>, b: string): string {
    if a.Some? then a.value else b
  }

  /** The `State` the modem at `path` reports. */
  function StateOf(tree: Tree, path: string): Option<int> {
    NumberProp(FindInterface(tree, path, MODEM_IFACE), "State")
  }

  function FactsAt(tree: Tree, path: string): Facts {
    var modem := FindInterface(tree, path, MODEM_IFACE);
    var modem3gpp := FindInterface(tree, path, MODEM3GPP_IFACE);
    var equipment := OrElse(StringProp(modem, "EquipmentIdentifier"), OrElse(StringProp(modem3gpp, "Imei"), ""));
    var mmState := MapMmState(StateOf(tree, path));
    Facts(
      ModemIdentity(None, Imei(equipment, GradeImei(equipment)), ReadSubscriptionId(tree, path), ReadOwnNumbers(modem), path),
      Present, Live, [],
      ReconcilePower(MapRadioPower(NumberProp(modem, "PowerState")), mmState),
      mmState,
      Registration(RegUnknown, {}),
      NmUnavailable,
      DataInterface(false, None),
      ReconcileStatus.Pending,
      RecoveryState(Idle, 0, None))
  }

  datatype MappingError = EmptyRuntimePath

  /** `mapModem`: an empty object path is no runtime path, and throws. */
  function MapModem(tree: Tree, path: string): Result<Facts, MappingError> {
    if path == "" then Err(EmptyRuntimePath) else Ok(FactsAt(tree, path))
  }

  /**
   What a tree maps to passes every guard but one: the mapping reports no SIM slots, so a modem
   that says it is locked has no locked card to show for it.
   */
  lemma MappedPossible(tree: Tree, path: string)
    ensures CheckSnapshot(FactsAt(tree, path)) == if StateOf(tree, path) == Some(2) then Some(MmLockedWithoutSimLock) else None
  {
    assert ActiveSlots([]) == 0;
  }

  // ---------------------------------------------------------------- fingerprints

  function ConfidenceText(c: IdentityConfidence): string {
    match c
    case High => "high"
    case Medium => "medium"
    case Low => "low"
  }

  function PowerText(p: RadioPower): string {
    match p
    case PowerUnknown => "unknown"
    case PowerOff => "off"
    case PowerLow => "low"
    case PowerOn => "on"
  }

  function MmStateText(s: MmState): string {
    match s
    case MmFailed => "failed"
    case MmUnknown => "unknown"
    case Initializing => "initializing"
    case Locked => "locked"
    case Disabled => "disabled"
    case Disabling => "disabling"
    case Enabling => "enabling"
    case Enabled => "enabled"
    case Searching => "searching"
    case Registered => "registered"
    case Disconnecting => "disconnecting"
    case Connecting => "connecting"
    case Connected => "connected"
  }

  function PresenceText(p: Presence): string {
    if p.Present? then "present" else "absent"
  }

  function RegistrationText(r: RegistrationStatus): string {
    match r
    case RegIdle => "idle"
    case RegHome => "home"
    case RegSearching => "searching"
    case RegDenied => "denied"
    case RegUnknown => "unknown"
    case RegRoaming => "roaming"
  }

  function ActivationText(a: NmActivation): string {
    match a
    case NmUnmanaged => "unmanaged"
    case NmUnavailable => "unavailable"
    case NmDisconnected => "disconnected"
    case NmActivating => "activating"
    case NmActivated => "activated"
    case NmDeactivating => "deactivating"
    case NmFailed => "failed"
  }

  function ReconcileText(r: ReconcileStatus): string {
    match r
    case Converged => "converged"
    case Reconciling => "reconciling"
    case Pending => "pending"
    case Divergent => "divergent"
    case Unsupported => "unsupported"
  }

  function EquipmentJson(e: EquipmentId): Json {
    match e
    case Imei(value, c) =>
      Obj([Member("provenance", Str("imei")), Member("value", Str(value)), Member("confidence", Str(ConfidenceText(c)))])
    case Serial(value, c) =>
      Obj([Member("provenance", Str("serial")), Member("value", Str(value)), Member("confidence", Str(ConfidenceText(c)))])
    case NoEquipmentId =>
      Obj([Member("provenance", Str("none")), Member("confidence", Str("low"))])
  }

  function OptionJson(s: Option<string>): Json {
    if s.None? then Null else Str(s.value)
  }

  function ListJson(xs: Option<seq<string>>): Json {
    if xs.None? then Null else Codec.Strings(xs.value)
  }

  /** The active technologies' names in sorted order. */
  function RatNames(rats: set<Rat>): seq<string> {
    (if Nr5g in rats then ["5gnr"] else []) + (if Gsm in rats then ["gsm"] else [])
    + (if Lte in rats then ["lte"] else []) + (if Umts in rats then ["umts"] else [])
  }

  function InterfaceJson(d: DataInterface): Json {
    Obj([Member("present", Bool(d.present))] + if d.name.Some? then [Member("name", Str(d.name.value))] else [])
  }

  function FingerprintJson(f: Facts): Json {
    Obj([ Member("id", EquipmentJson(f.identity.equipmentId)),
          Member("sub", OptionJson(f.identity.subscriptionId)),
          Member("own", ListJson(f.identity.ownNumbers)),
          Member("path", Str(f.identity.runtimePath)),
          Member("presence", Str(PresenceText(f.presence))),
          Member("radioPower", Str(PowerText(f.radioPower))),
          Member("mmState", Str(MmStateText(f.mmState))),
          Member("registration", Obj([ Member("status", Str(RegistrationText(f.registration.status))),
                                       Member("rats", Codec.Strings(RatNames(f.registration.activeRats))) ])),
          Member("nmActivation", Str(ActivationText(f.nmActivation))),
          Member("dataInterface", InterfaceJson(f.dataInterface)),
          Member("reconcileStatus", Str(ReconcileText(f.reconcileStatus))) ])
  }

  /** Everything meaningful about a mapped modem as one string; revision and source health are left out. */
  function Fingerprint(f: Facts): string {
    Stringify(FingerprintJson(f))
  }

  /** What every mapping fills in the same way, and the fingerprint leaves out. */
  predicate MappedShape(f: Facts) {
    && f.identity.logicalSlotId.None? && f.identity.equipmentId.Imei?
    && f.sourceHealth.Live? && f.simSlots == [] && f.registration == Registration(RegUnknown, {})
    && f.dataInterface == DataInterface(false, None) && f.recoveryState == RecoveryState(Idle, 0, None)
  }

  lemma StringsInjective(a: seq<string>, b: seq<string>)
    requires Codec.Strings(a) == Codec.Strings(b)
    ensures a == b
  {
    var x, y := Codec.Strings(a).items, Codec.Strings(b).items;
    forall i | 0 <= i < |a| && i < |b| ensures a[i] == b[i] {
      assert x[i] == Str(a[i]) && y[i] == Str(b[i]);
    }
    assert |x| == |a| && |y| == |b|;
  }

  lemma MembersEqual(a: seq<Member>, b: seq<Member>, i: nat)
    requires Obj(a) == Obj(b) && i < |a|
    ensures i < |b| && a[i].value == b[i].value
  {
  }

  /** On mapped modems a fingerprint identifies every fact: equal fingerprints mean equal modems. */
  lemma FingerprintInjective(f: Facts, g: Facts)
    requires MappedShape(f) && MappedShape(g)
    ensures Fingerprint(f) == Fingerprint(g) <==> f == g
  {
    if Fingerprint(f) == Fingerprint(g) {
      var a, b := FingerprintJson(f).members, FingerprintJson(g).members;
      StringifyInjective(FingerprintJson(f), FingerprintJson(g));
      var e, h := f.identity.equipmentId, g.identity.equipmentId;
      MembersEqual(a, b, 0);
      MembersEqual(EquipmentJson(e).members, EquipmentJson(h).members, 1);
      MembersEqual(EquipmentJson(e).members, EquipmentJson(h).members, 2);
      assert e == h;
      MembersEqual(a, b, 1);
      MembersEqual(a, b, 2);
      if f.identity.ownNumbers.Some? && g.identity.ownNumbers.Some? {
        StringsInjective(f.identity.ownNumbers.value, g.identity.ownNumbers.value);
      }
      MembersEqual(a, b, 3);
      assert f.identity == g.identity;
      MembersEqual(a, b, 4);
      MembersEqual(a, b, 5);
      MembersEqual(a, b, 6);
      MembersEqual(a, b, 8);
      MembersEqual(a, b, 10);
    }
  }
}
