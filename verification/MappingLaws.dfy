/** What the mapping makes of ModemManager's numbers, and exactly which facts a tree can map to (`backend/mapping.ts`). */
module MappingLaws {
  import opened Wrappers
  import opened Snapshot
  import opened Mapping
  import Codec

  // ---------------------------------------------------------------- ModemManager's numbers

  /** `MMModemState`. */
  function StateCode(s: MmState): int {
    match s
    case MmFailed => -1
    case MmUnknown => 0
    case Initializing => 1
    case Locked => 2
    case Disabled => 3
    case Disabling => 4
    case Enabling => 5
    case Enabled => 6
    case Searching => 7
    case Registered => 8
    case Disconnecting => 9
    case Connecting => 10
    case Connected => 11
  }

  /** Every state is read from its own number only; anything else, or no number at all, is `unknown`. */
  lemma StateExact(reported: Option<int>, s: MmState)
    ensures MapMmState(reported) == s <==>
            if s.MmUnknown? then reported.None? || reported.value < -1 || reported.value == 0 || reported.value > 11
            else reported == Some(StateCode(s))
  {
  }

  function PowerCode(p: RadioPower): int {
    match p
    case PowerUnknown => 0
    case PowerOff => 1
    case PowerLow => 2
    case PowerOn => 3
  }

  /** The `PowerState` the modem at `path` reports. */
  function PowerOf(tree: Tree, path: string): Option<int> {
    NumberProp(FindInterface(tree, path, MODEM_IFACE), "PowerState")
  }

  /** From `enabled` up to `connected` the radio must be on. */
  predicate OnTheAir(tree: Tree, path: string) {
    StateOf(tree, path).Some? && 6 <= StateOf(tree, path).value <= 11
  }

  /** A modem on the air is shown with its radio on unless it reports low power; any other as it reports. */
  lemma PowerExact(tree: Tree, path: string)
    ensures var shown, power := FactsAt(tree, path).radioPower, PowerOf(tree, path);
            && (shown.PowerLow? <==> power == Some(2))
            && (shown.PowerOff? <==> power == Some(1) && !OnTheAir(tree, path))
            && (shown.PowerOn? <==> power == Some(3) || (OnTheAir(tree, path) && power != Some(2)))
  {
  }

  // ---------------------------------------------------------------- trimming and grading

  predicate AllSpace(s: string) {
    forall i :: 0 <= i < |s| ==> Codec.IsTrimSpace(s[i])
  }

  /** No whitespace at either end. */
  predicate Trimmed(s: string) {
    s != "" ==> !Codec.IsTrimSpace(s[0]) && !Codec.IsTrimSpace(s[|s| - 1])
  }

  lemma {:induction false} StartExact(a: string, s: string)
    requires AllSpace(a) && (s != "" ==> !Codec.IsTrimSpace(s[0]))
    ensures TrimStart(a + s) == s
  {
    if a == "" {
      assert a + s == s;
    } else {
      assert (a + s)[1..] == a[1..] + s;
      StartExact(a[1..], s);
    }
  }

  lemma {:induction false} EndExact(s: string, b: string)
    requires AllSpace(b) && (s != "" ==> !Codec.IsTrimSpace(s[|s| - 1]))
    ensures TrimEnd(s + b) == s
  {
    if b == "" {
      assert s + b == s;
    } else {
      assert (s + b)[..|s + b| - 1] == s + b[..|b| - 1];
      EndExact(s, b[..|b| - 1]);
    }
  }

  /** Trimming takes off exactly the whitespace around a text. */
  lemma TrimExact(a: string, s: string, b: string)
    requires AllSpace(a) && AllSpace(b) && Trimmed(s)
    ensures Trim(a + s + b) == s
  {
    if s == "" {
      StartExact(a + b, "");
      assert a + s + b == a + b + "";
    } else {
      assert a + s + b == a + (s + b);
      StartExact(a, s + b);
      EndExact(s, b);
    }
  }

  lemma {:induction false} TrimStartParts(s: string) returns (a: string)
    ensures AllSpace(a) && s == a + TrimStart(s)
    ensures TrimStart(s) != "" ==> !Codec.IsTrimSpace(TrimStart(s)[0])
  {
    if s != "" && Codec.IsTrimSpace(s[0]) {
      a := TrimStartParts(s[1..]);
      assert s == [s[0]] + s[1..];
      a := [s[0]] + a;
    } else {
      a := "";
    }
  }

  lemma {:induction false} TrimEndParts(s: string) returns (b: string)
    ensures AllSpace(b) && s == TrimEnd(s) + b
    ensures TrimEnd(s) != "" ==> !Codec.IsTrimSpace(TrimEnd(s)[|TrimEnd(s)| - 1])
  {
    if s != "" && Codec.IsTrimSpace(s[|s| - 1]) {
      var last := [s[|s| - 1]];
      b := TrimEndParts(s[..|s| - 1]);
      assert s == s[..|s| - 1] + last;
      b := b + last;
    } else {
      b := "";
    }
  }

  lemma TrimTrims(s: string)
    ensures Trimmed(Trim(s)) && Trim(Trim(s)) == Trim(s)
  {
    var a := TrimStartParts(s);
    var b := TrimEndParts(TrimStart(s));
    var t := Trim(s);
    if t != "" {
      assert t[0] == TrimStart(s)[0];
    }
    assert "" + t + "" == t;
    TrimExact("", t, "");
  }

  /** Fifteen or sixteen digits between any whitespace are an IMEI, unless all of them are zeros; nothing says less than zeros. */
  lemma GradeExact(a: string, s: string, b: string)
    requires AllSpace(a) && AllSpace(b) && Trimmed(s)
    ensures var zeros, digits := (forall i :: 0 <= i < |s| ==> s[i] == '0'), (forall i :: 0 <= i < |s| ==> '0' <= s[i] <= '9');
            GradeImei(a + s + b) == if zeros then Low else if digits && (|s| == 15 || |s| == 16) then High else Medium
  {
    TrimExact(a, s, b);
  }

  // ---------------------------------------------------------------- which facts there are

  /** Facts that the mapping can produce: what it reads fits together, and everything else is as it fills it in. */
  predicate Mappable(f: Facts) {
    && MappedShape(f)
    && f.presence.Present? && f.nmActivation.NmUnavailable? && f.reconcileStatus.Pending?
    && f.identity.equipmentId.confidence == GradeImei(f.identity.equipmentId.value)
    && f.identity.subscriptionId != Some("")
    && (f.identity.ownNumbers.Some? ==>
          f.identity.ownNumbers.value != []
          && forall i :: 0 <= i < |f.identity.ownNumbers.value| ==>
               f.identity.ownNumbers.value[i] != "" && Trimmed(f.identity.ownNumbers.value[i]))
    && (6 <= StateCode(f.mmState) ==> f.radioPower.PowerOn? || f.radioPower.PowerLow?)
  }

  lemma {:induction false} NumbersTrimmed(raw: seq<string>)
    ensures forall i :: 0 <= i < |NonEmptyTrimmed(raw)| ==> NonEmptyTrimmed(raw)[i] != "" && Trimmed(NonEmptyTrimmed(raw)[i])
  {
    if raw != [] {
      NumbersTrimmed(raw[1..]);
      TrimTrims(raw[0]);
    }
  }

  lemma OwnTrimmed(modem: Option<seq<Property>>)
    ensures var own := ReadOwnNumbers(modem);
            own.Some? ==> own.value != [] && forall i :: 0 <= i < |own.value| ==> own.value[i] != "" && Trimmed(own.value[i])
  {
    if StringArrayProp(modem, "OwnNumbers").Some? {
      NumbersTrimmed(StringArrayProp(modem, "OwnNumbers").value);
    }
  }

  lemma MappedIsMappable(tree: Tree, path: string)
    ensures Mappable(FactsAt(tree, path))
  {
    OwnTrimmed(FindInterface(tree, path, MODEM_IFACE));
  }

  // ---------------------------------------------------------------- which modems there are

  predicate HasInterface(o: Object, name: string) {
    exists i :: 0 <= i < |o.interfaces| && o.interfaces[i].name == name
  }

  lemma {:induction false} FindsInterface(interfaces: seq<Interface>, name: string)
    ensures FindByName(interfaces, name).Some? <==> exists i :: 0 <= i < |interfaces| && interfaces[i].name == name
  {
    if interfaces != [] && interfaces[0].name != name {
      FindsInterface(interfaces[1..], name);
      if i :| 0 <= i < |interfaces| && interfaces[i].name == name {
        assert interfaces[1..][i - 1].name == name;
      }
    }
  }

  /** The modems of a tree are the objects with a modem interface, in the order of the tree. */
  lemma PathsExact(front: Tree, o: Object)
    ensures ModemPaths(front + [o]) == ModemPaths(front) + (if HasInterface(o, MODEM_IFACE) then [o.path] else [])
    ensures ModemPaths([]) == []
  {
    FindsInterface(o.interfaces, MODEM_IFACE);
    PathsConcat(front, [o]);
    var one := [o];
    assert one[1..] == [] && PathsWithInterface(one, MODEM_IFACE)
           == (if FindByName(one[0].interfaces, MODEM_IFACE).Some? then [one[0].path] else []) + PathsWithInterface(one[1..], MODEM_IFACE);
  }

  lemma {:induction false} PathsConcat(a: Tree, b: Tree)
    ensures ModemPaths(a + b) == ModemPaths(a) + ModemPaths(b)
  {
    if a == [] {
      assert a + b == b;
    } else {
      assert (a + b)[1..] == a[1..] + b;
      PathsConcat(a[1..], b);
    }
  }

  // ---------------------------------------------------------------- a tree for any such facts

  function Texts(xs: seq<string>): seq<Value> {
    seq(|xs|, i requires 0 <= i < |xs| => Text(xs[i]))
  }

  /** What the modem object says: the IMEI among its own properties, or with `legacy` only under its 3GPP interface. */
  function ModemProps(f: Facts, sim: string, legacy: bool): seq<Property> {
    [Property("State", Number(StateCode(f.mmState))), Property("PowerState", Number(PowerCode(f.radioPower)))]
    + (if !legacy && f.identity.equipmentId.Imei? then [Property("EquipmentIdentifier", Text(f.identity.equipmentId.value))] else [])
    + (if f.identity.ownNumbers.Some? then [Property("OwnNumbers", Values(Texts(f.identity.ownNumbers.value)))] else [])
    + (if f.identity.subscriptionId.Some? then [Property("Sim", Text(sim))] else [])
  }

  function ModemObject(f: Facts, sim: string, legacy: bool): Object {
    Object(f.identity.runtimePath,
           [Interface(MODEM_IFACE, ModemProps(f, sim, legacy))]
           + (if legacy && f.identity.equipmentId.Imei? then
                [Interface(MODEM3GPP_IFACE, [Property("Imei", Text(f.identity.equipmentId.value))])]
              else []))
  }

  function SimObject(f: Facts, sim: string): Object {
    Object(sim, [Interface(SIM_IFACE, [Property("SimIdentifier", Text(OrElse(f.identity.subscriptionId, "")))])])
  }

  /** Members of an array that are no strings are passed over, wherever they stand. */
  lemma {:induction false} StringsExact(items: seq<Value>, v: Value)
    ensures StringsAmong(items + [v]) == StringsAmong(items) + (if v.Text? then [v.s] else [])
  {
    if items == [] {
      var one := [v];
      assert items + one == one && one[1..] == [];
    } else {
      var all, rest := items + [v], items[1..];
      assert all[0] == items[0] && all[1..] == rest + [v];
      StringsExact(rest, v);
    }
  }

  lemma {:induction false} TextsBack(xs: seq<string>)
    ensures StringsAmong(Texts(xs)) == xs
  {
    if xs != [] {
      assert Texts(xs)[1..] == Texts(xs[1..]);
      TextsBack(xs[1..]);
    }
  }

  lemma {:induction false} TrimmedBack(xs: seq<string>)
    requires forall i :: 0 <= i < |xs| ==> xs[i] != "" && Trimmed(xs[i])
    ensures NonEmptyTrimmed(xs) == xs
  {
    if xs != [] {
      assert "" + xs[0] + "" == xs[0];
      TrimExact("", xs[0], "");
      TrimmedBack(xs[1..]);
    }
  }

  /** The first object of a path is the one that is looked at. */
  lemma {:induction false} FindAfter(front: Tree, o: Object, back: Tree)
    requires forall i :: 0 <= i < |front| ==> front[i].path != o.path
    ensures FindObject(front + [o] + back, o.path) == Some(o)
  {
    var tree := front + [o] + back;
    if front != [] {
      assert tree[1..] == front[1..] + [o] + back;
      FindAfter(front[1..], o, back);
    }
  }

  lemma {:induction false} PropConcat(a: seq<Property>, b: seq<Property>, name: string)
    ensures PropValueIn(a + b, name) == if PropValueIn(a, name).Some? then PropValueIn(a, name) else PropValueIn(b, name)
  {
    if a == [] {
      assert a + b == b;
    } else {
      assert (a + b)[1..] == a[1..] + b;
      PropConcat(a[1..], b, name);
    }
  }

  lemma PropFound(f: Facts, sim: string, legacy: bool, name: string)
    requires f.identity.equipmentId.Imei?
    ensures PropValueIn(ModemProps(f, sim, legacy), name)
         == if name == "State" then Some(Number(StateCode(f.mmState)))
            else if name == "PowerState" then Some(Number(PowerCode(f.radioPower)))
            else if name == "EquipmentIdentifier" && !legacy then Some(Text(f.identity.equipmentId.value))
            else if name == "OwnNumbers" && f.identity.ownNumbers.Some? then Some(Values(Texts(f.identity.ownNumbers.value)))
            else if name == "Sim" && f.identity.subscriptionId.Some? then Some(Text(sim))
            else None
  {
    var base := [Property("State", Number(StateCode(f.mmState))), Property("PowerState", Number(PowerCode(f.radioPower)))];
    var imei := if !legacy && f.identity.equipmentId.Imei? then [Property("EquipmentIdentifier", Text(f.identity.equipmentId.value))] else [];
    var own := if f.identity.ownNumbers.Some? then [Property("OwnNumbers", Values(Texts(f.identity.ownNumbers.value)))] else [];
    var card := if f.identity.subscriptionId.Some? then [Property("Sim", Text(sim))] else [];
    PropConcat(base + imei + own, card, name);
    PropConcat(base + imei, own, name);
    PropConcat(base, imei, name);
    PropConcat([base[0]], [base[1]], name);
    assert base == [base[0]] + [base[1]];
    OneProp(base[0], name);
    OneProp(base[1], name);
    if imei != [] {
      OneProp(imei[0], name);
    }
    if own != [] {
      OneProp(own[0], name);
    }
    if card != [] {
      OneProp(card[0], name);
    }
    assert "PowerState"[0] != "OwnNumbers"[0];
  }

  lemma OneProp(p: Property, name: string)
    ensures PropValueIn([p], name) == if p.name == name then Some(p.value) else None
  {
  }

  lemma ModemFound(f: Facts, tree: Tree, sim: string, legacy: bool)
    requires f.identity.equipmentId.Imei? && FindObject(tree, f.identity.runtimePath) == Some(ModemObject(f, sim, legacy))
    ensures FindInterface(tree, f.identity.runtimePath, MODEM_IFACE) == Some(ModemProps(f, sim, legacy))
    ensures legacy ==> FindInterface(tree, f.identity.runtimePath, MODEM3GPP_IFACE)
                       == Some([Property("Imei", Text(f.identity.equipmentId.value))])
  {
    var o := ModemObject(f, sim, legacy);
    assert o.interfaces[0].name == MODEM_IFACE && MODEM_IFACE != MODEM3GPP_IFACE by {
      assert |MODEM_IFACE| != |MODEM3GPP_IFACE|;
    }
    if legacy {
      var second := Interface(MODEM3GPP_IFACE, [Property("Imei", Text(f.identity.equipmentId.value))]);
      assert o.interfaces[1..] == [second];
      assert FindByName([second], MODEM3GPP_IFACE) == Some(second.props);
    }
  }

  lemma SimFound(f: Facts, tree: Tree, sim: string)
    requires FindObject(tree, sim) == Some(SimObject(f, sim)) && f.identity.subscriptionId.Some?
    ensures FindInterface(tree, sim, SIM_IFACE) == Some([Property("SimIdentifier", Text(f.identity.subscriptionId.value))])
  {
  }

  lemma NumbersBack(f: Facts, sim: string, legacy: bool)
    requires Mappable(f)
    ensures ReadOwnNumbers(Some(ModemProps(f, sim, legacy))) == f.identity.ownNumbers
  {
    PropFound(f, sim, legacy, "OwnNumbers");
    if f.identity.ownNumbers.Some? {
      TextsBack(f.identity.ownNumbers.value);
      TrimmedBack(f.identity.ownNumbers.value);
    }
  }

  lemma EquipmentBack(f: Facts, tree: Tree, sim: string, legacy: bool)
    requires Mappable(f) && FindObject(tree, f.identity.runtimePath) == Some(ModemObject(f, sim, legacy))
    ensures FactsAt(tree, f.identity.runtimePath).identity.equipmentId == f.identity.equipmentId
  {
    ModemFound(f, tree, sim, legacy);
    PropFound(f, sim, legacy, "EquipmentIdentifier");
  }

  lemma StateBack(f: Facts, tree: Tree, sim: string, legacy: bool)
    requires Mappable(f) && FindObject(tree, f.identity.runtimePath) == Some(ModemObject(f, sim, legacy))
    ensures FactsAt(tree, f.identity.runtimePath).mmState == f.mmState
    ensures FactsAt(tree, f.identity.runtimePath).radioPower == f.radioPower
  {
    ModemFound(f, tree, sim, legacy);
    PropFound(f, sim, legacy, "State");
    PropFound(f, sim, legacy, "PowerState");
    StateExact(Some(StateCode(f.mmState)), f.mmState);
  }

  lemma CardBack(f: Facts, tree: Tree, sim: string, legacy: bool)
    requires Mappable(f) && FindObject(tree, f.identity.runtimePath) == Some(ModemObject(f, sim, legacy))
    requires FindObject(tree, sim) == Some(SimObject(f, sim))
    ensures ReadSubscriptionId(tree, f.identity.runtimePath) == f.identity.subscriptionId
  {
    ModemFound(f, tree, sim, legacy);
    PropFound(f, sim, legacy, "Sim");
    if f.identity.subscriptionId.Some? {
      SimFound(f, tree, sim);
    }
  }

  /**
   The mapping undoes the writing of facts into a tree: wherever the modem's and its card's objects stand among others,
   and whichever of the two places carries the IMEI, the modem maps back to the very same facts.
   */
  lemma MappingRoundTrip(f: Facts, tree: Tree, sim: string, legacy: bool)
    requires Mappable(f) && f.identity.runtimePath != ""
    requires FindObject(tree, f.identity.runtimePath) == Some(ModemObject(f, sim, legacy))
    requires FindObject(tree, sim) == Some(SimObject(f, sim))
    ensures MapModem(tree, f.identity.runtimePath) == Ok(f)
  {
    ModemFound(f, tree, sim, legacy);
    EquipmentBack(f, tree, sim, legacy);
    StateBack(f, tree, sim, legacy);
    NumbersBack(f, sim, legacy);
    CardBack(f, tree, sim, legacy);
    var g := FactsAt(tree, f.identity.runtimePath);
    assert g.identity == f.identity;
  }

  /** Facts are what some tree maps to exactly when they fit together in this way. */
  lemma MappableExact(f: Facts)
    ensures (exists tree, path :: MapModem(tree, path) == Ok(f)) <==> Mappable(f) && f.identity.runtimePath != ""
  {
    if tree, path :| MapModem(tree, path) == Ok(f) {
      MappedIsMappable(tree, path);
    }
    if Mappable(f) && f.identity.runtimePath != "" {
      var sim := f.identity.runtimePath + "/card";
      var modem, card := ModemObject(f, sim, false), SimObject(f, sim);
      var tree := [modem, card];
      assert tree[1..] == [card];
      MappingRoundTrip(f, tree, sim, false);
    }
  }
}
