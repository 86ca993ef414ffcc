/** What the field walk of `PojoSettings.parsePojo` guarantees: the per-field
    rules (ignored fields, force-finals, listener shape, pairing of listeners
    with settings in either order), and a complete description of a successful
    walk: one declaration per distinct setting name, taken from the last field
    with that name, carrying exactly the listeners the ordering rules attach. */
module PojoSettingsProperties {
  import opened Wrappers
  import opened JavaLang
  import opened PojoSettings

  // ---------------------------------------------------------------------------
  // Vocabulary
  // ---------------------------------------------------------------------------

  /** A listener field the walker accepts: declared `BiConsumer<T, T>`. */
  predicate WellShapedListener(f: FieldDesc)
  {
    && f.declaredType == BiConsumerClass
    && f.genericArgs.Some?
    && |f.genericArgs.value| == 2
    && f.genericArgs.value[0] == f.genericArgs.value[1]
  }

  /** The `T` of a `BiConsumer<T, T>` listener field. */
  function ListenerType(f: FieldDesc): JClass
    requires WellShapedListener(f)
  {
    f.genericArgs.value[0]
  }

  /** A setting field whose setting name is `n`. */
  predicate IsSettingNamed(f: FieldDesc, convention: Convention, n: string)
  {
    IsSetting(f) && SettingName(f.name, convention) == n
  }

  /** The listener object a field contributes to setting `n`, if any:
      a non-ignored listener field for `n` whose value is a non-null object. */
  function ConsumerOf(f: FieldDesc, n: string): seq<Consumer>
  {
    if IsListenerFor(f, n) && f.value.Some? && f.value.value.Obj? then [f.value.value.id] else []
  }

  /** The listener objects the fields contribute to setting `n`, in field order. */
  function ConsumersFor(fields: seq<FieldDesc>, n: string): seq<Consumer>
  {
    if fields == [] then []
    else ConsumersFor(fields[..|fields| - 1], n) + ConsumerOf(fields[|fields| - 1], n)
  }

  /** The setting names the fields declare. */
  function SettingNames(fields: seq<FieldDesc>, convention: Convention): set<string>
  {
    if fields == [] then {}
    else
      var f := fields[|fields| - 1];
      SettingNames(fields[..|fields| - 1], convention) + (if IsSetting(f) then {SettingName(f.name, convention)} else {})
  }

  /** The set of setting names is exactly the names of the setting fields. */
  lemma {:induction false} SettingNamesAreNamesOfSettingFields(fields: seq<FieldDesc>, convention: Convention, n: string)
    ensures n in SettingNames(fields, convention) <==> exists k :: 0 <= k < |fields| && IsSettingNamed(fields[k], convention, n)
    decreases |fields|
  {
    if fields != [] {
      var p := fields[..|fields| - 1];
      SettingNamesAreNamesOfSettingFields(p, convention, n);
      if n in SettingNames(p, convention) {
        var k :| 0 <= k < |p| && IsSettingNamed(p[k], convention, n);
        assert fields[k] == p[k];
      }
      if exists k :: 0 <= k < |fields| && IsSettingNamed(fields[k], convention, n) {
        var k :| 0 <= k < |fields| && IsSettingNamed(fields[k], convention, n);
        if k < |p| {
          assert p[k] == fields[k];
        }
      }
    }
  }

  /** The index of the first setting field named `n`. */
  function FirstSetting(fields: seq<FieldDesc>, convention: Convention, n: string): (i: nat)
    requires n in SettingNames(fields, convention)
    ensures i < |fields| && IsSettingNamed(fields[i], convention, n)
    ensures n !in SettingNames(fields[..i], convention)
  {
    var p := fields[..|fields| - 1];
    if n in SettingNames(p, convention) then
      var i := FirstSetting(p, convention, n);
      assert p[..i] == fields[..i];
      i
    else
      assert fields[..|fields| - 1] == p;
      |fields| - 1
  }

  /** The index of the last setting field named `n`. */
  function LastSetting(fields: seq<FieldDesc>, convention: Convention, n: string): (j: nat)
    requires n in SettingNames(fields, convention)
    ensures j < |fields| && IsSettingNamed(fields[j], convention, n)
    ensures forall k :: j < k < |fields| ==> !IsSettingNamed(fields[k], convention, n)
  {
    var p := fields[..|fields| - 1];
    if IsSettingNamed(fields[|fields| - 1], convention, n) then |fields| - 1
    else
      var j := LastSetting(p, convention, n);
      assert forall k :: j < k < |p| ==> p[k] == fields[k];
      j
  }

  /** Where the walk stops parking listeners for `n`: its first setting field, or the end. */
  function ParkingEnd(fields: seq<FieldDesc>, convention: Convention, n: string): (e: nat)
    ensures e <= |fields|
  {
    if n in SettingNames(fields, convention) then FirstSetting(fields, convention, n) else |fields|
  }

  /** The listener parked for `n` in the walk's state, as a sequence of length at most one. */
  function ParkedListener(st: WalkState, n: string): seq<Consumer>
  {
    if n in st.listenerMap then [st.listenerMap[n].a] else []
  }

  /** The last element of a sequence, as a sequence of length at most one. */
  function LastOf(s: seq<Consumer>): (r: seq<Consumer>)
    ensures |r| == if s == [] then 0 else 1
    ensures s != [] ==> r[0] == s[|s| - 1]
  {
    if s == [] then [] else [s[|s| - 1]]
  }

  /** The listener parked for `n` when its first setting field is reached:
      the last listener for `n` declared before it, if any. */
  function ParkedFor(fields: seq<FieldDesc>, convention: Convention, n: string): (r: seq<Consumer>)
    requires n in SettingNames(fields, convention)
    ensures |r| <= 1
  {
    LastOf(ConsumersFor(fields[..FirstSetting(fields, convention, n)], n))
  }

  /** The listeners for `n` declared after its last setting field. */
  function AttachedAfter(fields: seq<FieldDesc>, convention: Convention, n: string): seq<Consumer>
    requires n in SettingNames(fields, convention)
  {
    ConsumersFor(fields[LastSetting(fields, convention, n) + 1..], n)
  }

  /** The declaration a successful walk builds for setting `n`: the facts of the
      last setting field named `n`; as listeners, the one parked before the first
      setting named `n`, then every listener declared after the last one. */
  function Expected(fields: seq<FieldDesc>, convention: Convention, n: string): Declaration
    requires n in SettingNames(fields, convention)
  {
    DeclarationOf(fields[LastSetting(fields, convention, n)], convention,
                  ParkedFor(fields, convention, n) + AttachedAfter(fields, convention, n))
  }

  // ---------------------------------------------------------------------------
  // One field at a time
  // ---------------------------------------------------------------------------

  /** An ignored field is skipped before any other check. */
  lemma IgnoredFieldChangesNothing(st: WalkState, f: FieldDesc, convention: Convention, forceFinals: bool)
    requires f.ignored
    ensures Step(st, f, convention, forceFinals) == Ok(st)
  {
  }

  /** The force-final check applies to every non-ignored field, listener fields
      included, and is the only source of `MustBeFinal`. */
  lemma ForceFinalAppliesToEveryField(st: WalkState, f: FieldDesc, convention: Convention, forceFinals: bool)
    requires !f.ignored
    ensures Step(st, f, convention, forceFinals) == Err(MustBeFinal(f.name)) <==> ViolatesForceFinal(f, forceFinals)
  {
  }

  /** A listener field must be a `BiConsumer` with two identical type arguments. */
  lemma ListenerMustBeWellShaped(st: WalkState, f: FieldDesc, convention: Convention, forceFinals: bool)
    requires !f.ignored && f.listener.Some? && !ViolatesForceFinal(f, forceFinals)
    ensures f.declaredType != BiConsumerClass ==> Step(st, f, convention, forceFinals) == Err(MustBeBiConsumer(f.name))
    ensures !WellShapedListener(f) <==> Step(st, f, convention, forceFinals).Err? && !Step(st, f, convention, forceFinals).error.ListenerTypeMismatch?
  {
  }

  /** A listener field whose value is null (or unreadable) changes neither map. */
  lemma NullListenerChangesNothing(st: WalkState, f: FieldDesc, convention: Convention, forceFinals: bool)
    requires !f.ignored && f.listener.Some? && !ViolatesForceFinal(f, forceFinals) && WellShapedListener(f)
    requires f.value.None? || f.value.value.Null?
    ensures Step(st, f, convention, forceFinals) == Ok(st)
  {
  }

  /** A listener for a setting already built is attached to it when its type is
      the setting's type, and aborts the walk otherwise. */
  lemma ListenerAfterItsSetting(st: WalkState, f: FieldDesc, convention: Convention, forceFinals: bool, n: string, consumer: Consumer)
    requires IsListenerFor(f, n) && !ViolatesForceFinal(f, forceFinals) && WellShapedListener(f)
    requires f.value == Some(Obj(consumer)) && n in st.builderMap
    ensures Step(st, f, convention, forceFinals).Ok? <==> st.builderMap[n].b == ListenerType(f)
    ensures Step(st, f, convention, forceFinals).Err? ==>
      Step(st, f, convention, forceFinals).error == ListenerTypeMismatch(f.name, st.builderMap[n].b)
    ensures Step(st, f, convention, forceFinals).Ok? ==>
      && Step(st, f, convention, forceFinals).value.listenerMap == st.listenerMap
      && Step(st, f, convention, forceFinals).value.builderMap.Keys == st.builderMap.Keys
      && Step(st, f, convention, forceFinals).value.builderMap[n] == Pair(st.builderMap[n].a.(listeners := st.builderMap[n].a.listeners + [consumer]), st.builderMap[n].b)
      && (forall m :: m in st.builderMap && m != n ==> Step(st, f, convention, forceFinals).value.builderMap[m] == st.builderMap[m])
  {
  }

  /** A listener for a setting not yet built is parked, replacing any listener
      parked earlier for the same name. */
  lemma ListenerBeforeItsSetting(st: WalkState, f: FieldDesc, convention: Convention, forceFinals: bool, n: string, consumer: Consumer)
    requires IsListenerFor(f, n) && !ViolatesForceFinal(f, forceFinals) && WellShapedListener(f)
    requires f.value == Some(Obj(consumer)) && n !in st.builderMap
    ensures Step(st, f, convention, forceFinals).Ok?
    ensures Step(st, f, convention, forceFinals).value.builderMap == st.builderMap
    ensures Step(st, f, convention, forceFinals).value.listenerMap == st.listenerMap[n := Pair(consumer, ListenerType(f))]
  {
  }

  /** A setting field builds a fresh declaration under its setting name, with the
      boxed field type; a parked listener for that name must have that type and
      is then its one listener. */
  lemma SettingTakesParkedListener(st: WalkState, f: FieldDesc, convention: Convention, forceFinals: bool)
    requires IsSetting(f) && !ViolatesForceFinal(f, forceFinals)
    ensures var n := SettingName(f.name, convention);
      n in st.listenerMap ==>
        (Step(st, f, convention, forceFinals).Ok? <==> st.listenerMap[n].b == Box(f.declaredType))
    ensures var n := SettingName(f.name, convention);
      n !in st.listenerMap ==> Step(st, f, convention, forceFinals).Ok?
    ensures var n := SettingName(f.name, convention);
      Step(st, f, convention, forceFinals).Ok? ==>
        && Step(st, f, convention, forceFinals).value.listenerMap == st.listenerMap
        && Step(st, f, convention, forceFinals).value.builderMap.Keys == st.builderMap.Keys + {n}
        && Step(st, f, convention, forceFinals).value.builderMap[n]
           == Pair(DeclarationOf(f, convention, ParkedListener(st, n)), Box(f.declaredType))
        && (forall m :: m in st.builderMap && m != n ==> Step(st, f, convention, forceFinals).value.builderMap[m] == st.builderMap[m])
  {
  }

  // ---------------------------------------------------------------------------
  // Whole walks
  // ---------------------------------------------------------------------------

  /** Walking `p + [f]` is walking `p`, then one more step. */
  lemma {:induction false} WalkAppend(st: WalkState, p: seq<FieldDesc>, f: FieldDesc, convention: Convention, forceFinals: bool)
    ensures WalkFrom(st, p + [f], convention, forceFinals)
         == match WalkFrom(st, p, convention, forceFinals)
            case Err(e) => Err(e)
            case Ok(s) => Step(s, f, convention, forceFinals)
    decreases |p|
  {
    if p == [] {
      assert [f][1..] == [];
    } else {
      assert (p + [f])[0] == p[0] && (p + [f])[1..] == p[1..] + [f];
      match Step(st, p[0], convention, forceFinals)
      case Err(e) =>
      case Ok(next) => WalkAppend(next, p[1..], f, convention, forceFinals);
    }
  }

  /** The fields with `@Setting.Ignored` removed. */
  function WithoutIgnored(fields: seq<FieldDesc>): (r: seq<FieldDesc>)
    ensures |r| <= |fields|
    ensures forall k :: 0 <= k < |r| ==> !r[k].ignored
  {
    if fields == [] then []
    else if fields[0].ignored then WithoutIgnored(fields[1..])
    else [fields[0]] + WithoutIgnored(fields[1..])
  }

  /** Ignored fields have no effect at all on the walk. */
  lemma {:induction false} IgnoredFieldsAreInvisible(st: WalkState, fields: seq<FieldDesc>, convention: Convention, forceFinals: bool)
    ensures WalkFrom(st, fields, convention, forceFinals) == WalkFrom(st, WithoutIgnored(fields), convention, forceFinals)
    decreases |fields|
  {
    if fields != [] {
      if fields[0].ignored {
        IgnoredFieldsAreInvisible(st, fields[1..], convention, forceFinals);
      } else {
        var r := [fields[0]] + WithoutIgnored(fields[1..]);
        assert r[0] == fields[0] && r[1..] == WithoutIgnored(fields[1..]);
        match Step(st, fields[0], convention, forceFinals)
        case Err(e) =>
        case Ok(next) => IgnoredFieldsAreInvisible(next, fields[1..], convention, forceFinals);
      }
    }
  }

  /** Under force-finals, one non-ignored non-final field without `@NoForceFinal`
      anywhere makes the whole walk fail. */
  lemma {:induction false} NonFinalFieldAbortsWalk(st: WalkState, fields: seq<FieldDesc>, convention: Convention, forceFinals: bool, i: nat)
    requires i < |fields| && !fields[i].ignored && ViolatesForceFinal(fields[i], forceFinals)
    ensures WalkFrom(st, fields, convention, forceFinals).Err?
    decreases i
  {
    if i > 0 {
      match Step(st, fields[0], convention, forceFinals)
      case Err(e) =>
      case Ok(next) => NonFinalFieldAbortsWalk(next, fields[1..], convention, forceFinals, i - 1);
    }
  }

  /** With force-finals off (`@Settings(noForceFinals = true)`), no field is ever rejected for not being final. */
  lemma {:induction false} NoForceFinalsNeverRejectsNonFinal(st: WalkState, fields: seq<FieldDesc>, convention: Convention)
    ensures var r := WalkFrom(st, fields, convention, false); !(r.Err? && r.error.MustBeFinal?)
    decreases |fields|
  {
    if fields != [] {
      match Step(st, fields[0], convention, false)
      case Err(e) =>
      case Ok(next) => NoForceFinalsNeverRejectsNonFinal(next, fields[1..], convention);
    }
  }

  /** What the walk's maps hold for name `n` after the fields `fields`:
      a builder exactly when some setting field is named `n`, holding `Expected`;
      a parked listener exactly when a listener for `n` came before its first setting,
      namely the last such listener. */
  ghost predicate StateDescribes(st: WalkState, fields: seq<FieldDesc>, convention: Convention, n: string)
  {
    && (n in st.builderMap <==> n in SettingNames(fields, convention))
    && (n in st.builderMap ==> st.builderMap[n].a == Expected(fields, convention, n))
    && (n in st.listenerMap <==> ConsumersFor(fields[..ParkingEnd(fields, convention, n)], n) != [])
    && (n in st.listenerMap ==>
          [st.listenerMap[n].a] == LastOf(ConsumersFor(fields[..ParkingEnd(fields, convention, n)], n)))
  }

  /** The vocabulary functions on `p + [f]`, in terms of `p` and `f`. */
  lemma AppendOne(p: seq<FieldDesc>, f: FieldDesc, convention: Convention, n: string)
    ensures (p + [f])[..|p|] == p
    ensures SettingNames(p + [f], convention)
         == SettingNames(p, convention) + (if IsSetting(f) then {SettingName(f.name, convention)} else {})
    ensures ConsumersFor(p + [f], n) == ConsumersFor(p, n) + ConsumerOf(f, n)
  {
    assert (p + [f])[..|p|] == p;
  }

  /** `StateDescribes` survives a setting field named `n`. */
  lemma DescriptionAfterSettingNamed(st: WalkState, p: seq<FieldDesc>, f: FieldDesc, convention: Convention, forceFinals: bool, n: string)
    requires StateDescribes(st, p, convention, n)
    requires Step(st, f, convention, forceFinals).Ok? && IsSettingNamed(f, convention, n)
    ensures StateDescribes(Step(st, f, convention, forceFinals).value, p + [f], convention, n)
  {
    var q := p + [f];
    var next := Step(st, f, convention, forceFinals).value;
    AppendOne(p, f, convention, n);
    SettingTakesParkedListener(st, f, convention, forceFinals);
    assert LastSetting(q, convention, n) == |p|;
    assert q[|p| + 1..] == [];
    var e := ParkingEnd(p, convention, n);
    assert ParkingEnd(q, convention, n) == e;
    assert q[..e] == p[..e];
    assert next.listenerMap == st.listenerMap;
    assert ParkedFor(q, convention, n) == ParkedListener(st, n);
    assert next.builderMap[n].a == Expected(q, convention, n);
  }

  /** Appending a field keeps the first setting of a declared name. */
  lemma FirstSettingAfterAppend(p: seq<FieldDesc>, f: FieldDesc, convention: Convention, n: string)
    requires n in SettingNames(p, convention)
    ensures n in SettingNames(p + [f], convention)
    ensures FirstSetting(p + [f], convention, n) == FirstSetting(p, convention, n)
  {
    AppendOne(p, f, convention, n);
  }

  /** Appending a field not named `n` keeps the last setting named `n`. */
  lemma LastSettingAfterAppend(p: seq<FieldDesc>, f: FieldDesc, convention: Convention, n: string)
    requires n in SettingNames(p, convention) && !IsSettingNamed(f, convention, n)
    ensures n in SettingNames(p + [f], convention)
    ensures LastSetting(p + [f], convention, n) == LastSetting(p, convention, n)
  {
    AppendOne(p, f, convention, n);
  }

  /** Appending a field keeps the listener parked for a declared name. */
  lemma ParkedAfterAppend(p: seq<FieldDesc>, f: FieldDesc, convention: Convention, n: string)
    requires n in SettingNames(p, convention)
    ensures n in SettingNames(p + [f], convention)
    ensures ParkedFor(p + [f], convention, n) == ParkedFor(p, convention, n)
  {
    FirstSettingAfterAppend(p, f, convention, n);
    var i := FirstSetting(p, convention, n);
    assert (p + [f])[..i] == p[..i];
  }

  /** Appending a field not named `n` adds its listener, if any, to those attached after the last setting. */
  lemma AttachedAfterAppend(p: seq<FieldDesc>, f: FieldDesc, convention: Convention, n: string)
    requires n in SettingNames(p, convention) && !IsSettingNamed(f, convention, n)
    ensures n in SettingNames(p + [f], convention)
    ensures AttachedAfter(p + [f], convention, n) == AttachedAfter(p, convention, n) + ConsumerOf(f, n)
  {
    LastSettingAfterAppend(p, f, convention, n);
    var j := LastSetting(p, convention, n);
    var tail := p[j + 1..];
    assert (p + [f])[j + 1..] == tail + [f];
    assert (tail + [f])[..|tail|] == tail;
    assert ConsumersFor(tail + [f], n) == ConsumersFor(tail, n) + ConsumerOf(f, n);
  }

  /** For a declared name, another field only appends what it contributes to the expected listeners. */
  lemma ExpectedAfterOtherField(p: seq<FieldDesc>, f: FieldDesc, convention: Convention, n: string)
    requires n in SettingNames(p, convention) && !IsSettingNamed(f, convention, n)
    ensures n in SettingNames(p + [f], convention)
    ensures Expected(p + [f], convention, n)
         == Expected(p, convention, n).(listeners := Expected(p, convention, n).listeners + ConsumerOf(f, n))
    ensures ParkingEnd(p + [f], convention, n) == ParkingEnd(p, convention, n)
    ensures (p + [f])[..ParkingEnd(p, convention, n)] == p[..ParkingEnd(p, convention, n)]
  {
    FirstSettingAfterAppend(p, f, convention, n);
    LastSettingAfterAppend(p, f, convention, n);
    ParkedAfterAppend(p, f, convention, n);
    AttachedAfterAppend(p, f, convention, n);
    var j := LastSetting(p, convention, n);
    assert (p + [f])[j] == p[j];
    var parked := ParkedFor(p, convention, n);
    var after := AttachedAfter(p, convention, n);
    assert parked + (after + ConsumerOf(f, n)) == (parked + after) + ConsumerOf(f, n);
    assert (p + [f])[..FirstSetting(p, convention, n)] == p[..FirstSetting(p, convention, n)];
  }

  /** For a declared name, another field only appends its listener, if any, to the builder. */
  lemma StepOnOtherField(st: WalkState, f: FieldDesc, convention: Convention, forceFinals: bool, n: string)
    requires n in st.builderMap && !IsSettingNamed(f, convention, n)
    requires Step(st, f, convention, forceFinals).Ok?
    ensures var next := Step(st, f, convention, forceFinals).value;
      && n in next.builderMap
      && next.builderMap[n].a == st.builderMap[n].a.(listeners := st.builderMap[n].a.listeners + ConsumerOf(f, n))
      && (n in next.listenerMap <==> n in st.listenerMap)
      && (n in st.listenerMap ==> next.listenerMap[n] == st.listenerMap[n])
  {
    if IsListenerFor(f, n) && f.value.Some? && f.value.value.Obj? {
      ListenerAfterItsSetting(st, f, convention, forceFinals, n, f.value.value.id);
    } else if IsSetting(f) {
      SettingTakesParkedListener(st, f, convention, forceFinals);
    }
  }

  /** `StateDescribes` survives any other field, for a name already declared. */
  lemma DescriptionAfterOtherFieldDeclared(st: WalkState, p: seq<FieldDesc>, f: FieldDesc, convention: Convention, forceFinals: bool, n: string)
    requires StateDescribes(st, p, convention, n) && n in SettingNames(p, convention)
    requires Step(st, f, convention, forceFinals).Ok? && !IsSettingNamed(f, convention, n)
    ensures StateDescribes(Step(st, f, convention, forceFinals).value, p + [f], convention, n)
  {
    ExpectedAfterOtherField(p, f, convention, n);
    StepOnOtherField(st, f, convention, forceFinals, n);
  }

  /** For a name not yet declared, another field can only park its listener. */
  lemma StepOnUndeclared(st: WalkState, f: FieldDesc, convention: Convention, forceFinals: bool, n: string)
    requires n !in st.builderMap && !IsSettingNamed(f, convention, n)
    requires Step(st, f, convention, forceFinals).Ok?
    ensures var next := Step(st, f, convention, forceFinals).value;
      && n !in next.builderMap
      && (n in next.listenerMap <==> n in st.listenerMap || ConsumerOf(f, n) != [])
      && (ConsumerOf(f, n) != [] ==> [next.listenerMap[n].a] == ConsumerOf(f, n))
      && (ConsumerOf(f, n) == [] && n in st.listenerMap ==> next.listenerMap[n] == st.listenerMap[n])
  {
    if IsListenerFor(f, n) && f.value.Some? && f.value.value.Obj? {
      ListenerBeforeItsSetting(st, f, convention, forceFinals, n, f.value.value.id);
    } else if IsSetting(f) {
      SettingTakesParkedListener(st, f, convention, forceFinals);
    }
  }

  /** `StateDescribes` survives any other field, for a name not yet declared. */
  lemma DescriptionAfterOtherFieldUndeclared(st: WalkState, p: seq<FieldDesc>, f: FieldDesc, convention: Convention, forceFinals: bool, n: string)
    requires StateDescribes(st, p, convention, n) && n !in SettingNames(p, convention)
    requires Step(st, f, convention, forceFinals).Ok? && !IsSettingNamed(f, convention, n)
    ensures StateDescribes(Step(st, f, convention, forceFinals).value, p + [f], convention, n)
  {
    var q := p + [f];
    AppendOne(p, f, convention, n);
    assert n !in SettingNames(q, convention);
    assert q[..ParkingEnd(q, convention, n)] == q;
    assert p[..ParkingEnd(p, convention, n)] == p;
    StepOnUndeclared(st, f, convention, forceFinals, n);
    var cs := ConsumersFor(p, n);
    assert ConsumerOf(f, n) != [] ==> LastOf(cs + ConsumerOf(f, n)) == ConsumerOf(f, n);
    assert ConsumerOf(f, n) == [] ==> cs + ConsumerOf(f, n) == cs;
  }

  /** One successful step keeps `StateDescribes` for name `n`. */
  lemma StepKeepsDescription(st: WalkState, p: seq<FieldDesc>, f: FieldDesc, convention: Convention, forceFinals: bool, n: string)
    requires StateDescribes(st, p, convention, n)
    requires Step(st, f, convention, forceFinals).Ok?
    ensures StateDescribes(Step(st, f, convention, forceFinals).value, p + [f], convention, n)
  {
    if IsSettingNamed(f, convention, n) {
      DescriptionAfterSettingNamed(st, p, f, convention, forceFinals, n);
    } else if n in SettingNames(p, convention) {
      DescriptionAfterOtherFieldDeclared(st, p, f, convention, forceFinals, n);
    } else {
      DescriptionAfterOtherFieldUndeclared(st, p, f, convention, forceFinals, n);
    }
  }

  /** A successful walk from the empty maps leaves maps described by the fields. */
  lemma {:induction false} WalkDescribedByFields(fields: seq<FieldDesc>, convention: Convention, forceFinals: bool, n: string)
    requires WalkFrom(EmptyState, fields, convention, forceFinals).Ok?
    ensures StateDescribes(WalkFrom(EmptyState, fields, convention, forceFinals).value, fields, convention, n)
    decreases |fields|
  {
    if fields == [] {
      assert fields[..0] == [];
    } else {
      var p := fields[..|fields| - 1];
      var f := fields[|fields| - 1];
      assert fields == p + [f];
      WalkAppend(EmptyState, p, f, convention, forceFinals);
      WalkDescribedByFields(p, convention, forceFinals, n);
      StepKeepsDescription(WalkFrom(EmptyState, p, convention, forceFinals).value, p, f, convention, forceFinals, n);
    }
  }

  /** A successful `parsePojo` declares exactly one setting per distinct setting
      name; each is built from the last field with that name, and carries the
      listener parked before the first such field (if any) followed by every
      listener declared after the last such field. */
  lemma ParseResultDescribedByFields(fields: seq<FieldDesc>, convention: Convention, forceFinals: bool)
    requires Parse(fields, convention, forceFinals).Ok?
    ensures Parse(fields, convention, forceFinals).value.Keys == SettingNames(fields, convention)
    ensures forall n :: n in Parse(fields, convention, forceFinals).value ==>
      n in SettingNames(fields, convention) && Parse(fields, convention, forceFinals).value[n] == Expected(fields, convention, n)
  {
    var st := WalkFrom(EmptyState, fields, convention, forceFinals).value;
    forall n
      ensures n in st.builderMap <==> n in SettingNames(fields, convention)
      ensures n in st.builderMap ==> st.builderMap[n].a == Expected(fields, convention, n)
    {
      WalkDescribedByFields(fields, convention, forceFinals, n);
    }
  }

  // ---------------------------------------------------------------------------
  // Ordering
  // ---------------------------------------------------------------------------

  /** Walking `[f] + rest` is one step, then the rest. */
  lemma {:induction false} WalkCons(st: WalkState, f: FieldDesc, rest: seq<FieldDesc>, convention: Convention, forceFinals: bool)
    ensures WalkFrom(st, [f] + rest, convention, forceFinals)
         == match Step(st, f, convention, forceFinals)
            case Err(e) => Err(e)
            case Ok(s) => WalkFrom(s, rest, convention, forceFinals)
  {
    assert ([f] + rest)[0] == f && ([f] + rest)[1..] == rest;
  }

  /** A listener may come before or after its setting: the outcome is the same,
      and the type check fails in both orders when the types differ. */
  lemma ListenerEitherSideOfSetting(l: FieldDesc, s: FieldDesc, convention: Convention, forceFinals: bool, consumer: Consumer)
    requires IsSetting(s) && !ViolatesForceFinal(s, forceFinals)
    requires IsListenerFor(l, SettingName(s.name, convention)) && !ViolatesForceFinal(l, forceFinals) && WellShapedListener(l)
    requires l.value == Some(Obj(consumer))
    ensures ListenerType(l) == Box(s.declaredType) ==>
      && Parse([l, s], convention, forceFinals) == Parse([s, l], convention, forceFinals)
      && Parse([s, l], convention, forceFinals) == Ok(map[SettingName(s.name, convention) := DeclarationOf(s, convention, [consumer])])
    ensures ListenerType(l) != Box(s.declaredType) ==>
      Parse([l, s], convention, forceFinals).Err? && Parse([s, l], convention, forceFinals).Err?
  {
    var n := SettingName(s.name, convention);
    assert [l, s] == [l] + [s] && [s, l] == [s] + [l];
    ListenerBeforeItsSetting(EmptyState, l, convention, forceFinals, n, consumer);
    var parked := Step(EmptyState, l, convention, forceFinals).value;
    WalkCons(EmptyState, l, [s], convention, forceFinals);
    WalkCons(parked, s, [], convention, forceFinals);
    SettingTakesParkedListener(parked, s, convention, forceFinals);
    SettingTakesParkedListener(EmptyState, s, convention, forceFinals);
    var built := Step(EmptyState, s, convention, forceFinals).value;
    WalkCons(EmptyState, s, [l], convention, forceFinals);
    WalkCons(built, l, [], convention, forceFinals);
    ListenerAfterItsSetting(built, l, convention, forceFinals, n, consumer);
    if ListenerType(l) == Box(s.declaredType) {
      var a := Step(parked, s, convention, forceFinals).value;
      var b := Step(built, l, convention, forceFinals).value;
      assert [] + [consumer] == [consumer];
      assert a.builderMap == b.builderMap;
      assert Built(b.builderMap) == map[n := DeclarationOf(s, convention, [consumer])];
    }
  }

  /** Of two listeners parked for the same setting, only the later one is attached. */
  lemma LaterParkedListenerReplaces(l1: FieldDesc, l2: FieldDesc, s: FieldDesc, convention: Convention, forceFinals: bool, c1: Consumer, c2: Consumer)
    requires IsSetting(s) && !ViolatesForceFinal(s, forceFinals)
    requires IsListenerFor(l1, SettingName(s.name, convention)) && !ViolatesForceFinal(l1, forceFinals) && WellShapedListener(l1)
    requires IsListenerFor(l2, SettingName(s.name, convention)) && !ViolatesForceFinal(l2, forceFinals) && WellShapedListener(l2)
    requires l1.value == Some(Obj(c1)) && l2.value == Some(Obj(c2))
    requires ListenerType(l2) == Box(s.declaredType)
    ensures Parse([l1, l2, s], convention, forceFinals) == Ok(map[SettingName(s.name, convention) := DeclarationOf(s, convention, [c2])])
  {
    var n := SettingName(s.name, convention);
    assert [l1, l2, s] == [l1] + ([l2] + [s]);
    ListenerBeforeItsSetting(EmptyState, l1, convention, forceFinals, n, c1);
    var st1 := Step(EmptyState, l1, convention, forceFinals).value;
    ListenerBeforeItsSetting(st1, l2, convention, forceFinals, n, c2);
    var st2 := Step(st1, l2, convention, forceFinals).value;
    SettingTakesParkedListener(st2, s, convention, forceFinals);
    WalkCons(EmptyState, l1, [l2] + [s], convention, forceFinals);
    WalkCons(st1, l2, [s], convention, forceFinals);
    WalkCons(st2, s, [], convention, forceFinals);
    assert Built(Step(st2, s, convention, forceFinals).value.builderMap) == map[n := DeclarationOf(s, convention, [c2])];
  }

  /** A later setting with the same setting name replaces the earlier one. */
  lemma LaterSettingReplacesEarlier(s1: FieldDesc, s2: FieldDesc, convention: Convention, forceFinals: bool)
    requires IsSetting(s1) && !ViolatesForceFinal(s1, forceFinals)
    requires IsSetting(s2) && !ViolatesForceFinal(s2, forceFinals)
    requires SettingName(s1.name, convention) == SettingName(s2.name, convention)
    ensures Parse([s1, s2], convention, forceFinals) == Parse([s2], convention, forceFinals)
    ensures Parse([s2], convention, forceFinals) == Ok(map[SettingName(s2.name, convention) := DeclarationOf(s2, convention, [])])
  {
    assert [s1, s2] == [s1] + [s2] && [s2] == [s2] + [];
    SettingTakesParkedListener(EmptyState, s1, convention, forceFinals);
    var st1 := Step(EmptyState, s1, convention, forceFinals).value;
    SettingTakesParkedListener(st1, s2, convention, forceFinals);
    SettingTakesParkedListener(EmptyState, s2, convention, forceFinals);
    WalkCons(EmptyState, s1, [s2], convention, forceFinals);
    WalkCons(st1, s2, [], convention, forceFinals);
    WalkCons(EmptyState, s2, [], convention, forceFinals);
    assert Built(Step(EmptyState, s2, convention, forceFinals).value.builderMap)
        == map[SettingName(s2.name, convention) := DeclarationOf(s2, convention, [])];
    assert Step(st1, s2, convention, forceFinals).value.builderMap == Step(EmptyState, s2, convention, forceFinals).value.builderMap;
  }

  /** A listener declared between two settings of the same name goes to the
      first builder, which the second replaces: it is not attached to the result. */
  lemma ListenerBetweenSameNamedSettingsIsDropped(s1: FieldDesc, l: FieldDesc, s2: FieldDesc, convention: Convention, forceFinals: bool, consumer: Consumer)
    requires IsSetting(s1) && !ViolatesForceFinal(s1, forceFinals)
    requires IsSetting(s2) && !ViolatesForceFinal(s2, forceFinals)
    requires SettingName(s1.name, convention) == SettingName(s2.name, convention)
    requires IsListenerFor(l, SettingName(s1.name, convention)) && !ViolatesForceFinal(l, forceFinals) && WellShapedListener(l)
    requires l.value == Some(Obj(consumer)) && ListenerType(l) == Box(s1.declaredType)
    ensures Parse([s1, l, s2], convention, forceFinals) == Parse([s2], convention, forceFinals)
  {
    var n := SettingName(s1.name, convention);
    assert [s1, l, s2] == [s1] + ([l] + [s2]) && [s2] == [s2] + [];
    SettingTakesParkedListener(EmptyState, s1, convention, forceFinals);
    var st1 := Step(EmptyState, s1, convention, forceFinals).value;
    ListenerAfterItsSetting(st1, l, convention, forceFinals, n, consumer);
    var st2 := Step(st1, l, convention, forceFinals).value;
    SettingTakesParkedListener(st2, s2, convention, forceFinals);
    SettingTakesParkedListener(EmptyState, s2, convention, forceFinals);
    WalkCons(EmptyState, s1, [l] + [s2], convention, forceFinals);
    WalkCons(st1, l, [s2], convention, forceFinals);
    WalkCons(st2, s2, [], convention, forceFinals);
    WalkCons(EmptyState, s2, [], convention, forceFinals);
    assert Step(st2, s2, convention, forceFinals).value.builderMap == Step(EmptyState, s2, convention, forceFinals).value.builderMap;
  }

  /** Without a `@Settings` annotation the default convention keeps field names.
      This rests on `NoNamingConvention` being taken as the identity, as it is modelled here. */
  lemma DefaultConventionKeepsFieldNames(fieldName: string)
    ensures SettingName(fieldName, NoNamingConvention) == fieldName
  {
  }
}
