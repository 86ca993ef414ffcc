/** The annotation mapper of `PojoSettings`: a walk over the declared fields of a
    plain Java object that turns every non-ignored field into a setting builder
    and attaches `@Listener` fields to the setting they name.

    Reflection is replaced by a descriptor per field (`FieldDesc`) carrying the
    facts the walker reads; a `ConfigValueBuilder` is replaced by the record of
    facts it collects (`Declaration`); a `BiConsumer` listener is an opaque object
    identity (`Consumer`); the naming convention is an uninterpreted function. */
module PojoSettings {
  import opened Wrappers
  import opened JavaLang

  /** Identity of a Java object read from a field. */
  type ObjectId = nat

  /** A value read from a field: `null` or some object. */
  datatype JValue = Null | Obj(id: ObjectId)

  /** A listener (`BiConsumer`) object, identified by its object identity. */
  type Consumer = ObjectId

  /** `@Comment(value)`. */
  datatype Comment = Comment(value: string)

  /** `@Listener(value)`: the listener's target setting name. */
  datatype Listener = Listener(value: string)

  /** `SettingNamingConvention.name`: the result may be `null` (`None`). */
  type Convention = string -> Option<string>

  /** What reflection tells the walker about one declared field. */
  datatype FieldDesc = FieldDesc(
    name: string,                        // field.getName()
    isFinal: bool,                       // Modifier.isFinal(field.getModifiers())
    declaredType: JClass,                // field.getType()
    genericArgs: Option<seq<JClass>>,    // actual type arguments; None if the generic type is not parameterized
    value: Option<JValue>,               // field.get(pojo); None if it threw IllegalAccessException
    comment: Option<Comment>,            // @Comment
    ignored: bool,                       // @Setting.Ignored
    noForceFinal: bool,                  // @Setting.NoForceFinal
    finalSetting: bool,                  // @Setting.Final
    listener: Option<Listener>)          // @Listener

  /** `FieldProperties`, without its constraint set (always empty and never read). */
  datatype FieldProperties = FieldProperties(
    comment: Option<string>,
    ignored: bool,
    noForceFinal: bool,
    finalValue: bool)

  /** The `Pair` the walker stores in its two maps. */
  datatype Pair<A, B> = Pair(a: A, b: B)

  /** What a `ConfigValueBuilder` has collected when `build()` is called. */
  datatype Declaration = Declaration(
    name: string,
    valueType: JClass,
    comment: Option<string>,
    isFinal: bool,
    defaultValue: Option<JValue>,        // None: defaultValue(...) was never called
    listeners: seq<Consumer>)            // in the order listen(...) was called

  /** The walker's two maps. */
  datatype WalkState = WalkState(
    builderMap: map<string, Pair<Declaration, JClass>>,
    listenerMap: map<string, Pair<Consumer, JClass>>)

  const EmptyState := WalkState(map[], map[])

  /** The `IllegalStateException`s (and the one `ClassCastException`) that abort the walk.
      Each names the offending field. */
  datatype WalkError =
    | MustBeFinal(field: string)
    | MustBeBiConsumer(field: string)
    | NotParameterized(field: string)
    | MustHaveTwoGenericTypes(field: string)
    | MustHaveIdenticalGenericTypes(field: string)
    | ListenerTypeMismatch(field: string, settingType: JClass)
    | SettingListenerMismatch(field: string, listenerType: JClass, settingType: JClass)

  /** `getComment(Comment)`: `null` without the annotation, else its value. */
  function GetComment(annotation: Option<Comment>): (r: Option<string>)
    ensures r.None? <==> annotation.None?
    ensures annotation.Some? ==> r.value == annotation.value.value
  {
    match annotation
    case None => None
    case Some(c) => Some(c.value)
  }

  /** `getProperties(Field)`: the annotation facts of a field. */
  function GetProperties(f: FieldDesc): (p: FieldProperties)
    ensures p.comment == GetComment(f.comment)
    ensures p.ignored == f.ignored && p.noForceFinal == f.noForceFinal && p.finalValue == f.finalSetting
  {
    FieldProperties(GetComment(f.comment), f.ignored, f.noForceFinal, f.finalSetting)
  }

  /** The setting name of a field: the convention's name for it, unless that is
      `null` or empty, in which case the field's own name. */
  function SettingName(fieldName: string, convention: Convention): (r: string)
    ensures r == fieldName || Some(r) == convention(fieldName)
    ensures r == "" ==> fieldName == ""
    ensures convention(fieldName).Some? && convention(fieldName).value != "" ==> Some(r) == convention(fieldName)
  {
    var conventionName := convention(fieldName);
    if conventionName.None? || conventionName.value == "" then fieldName else conventionName.value
  }

  /** The declaration a setting field builds: its setting name, its boxed type,
      its comment, its `@Setting(final)` flag and its value as the default,
      with the given listeners. */
  function DeclarationOf(f: FieldDesc, convention: Convention, listeners: seq<Consumer>): Declaration
  {
    var p := GetProperties(f);
    Declaration(SettingName(f.name, convention), Box(f.declaredType), p.comment, p.finalValue, f.value, listeners)
  }

  /** A field that declares a setting: neither ignored nor a listener. */
  predicate IsSetting(f: FieldDesc)
  {
    !f.ignored && f.listener.None?
  }

  /** A non-ignored listener field targeting `name`. */
  predicate IsListenerFor(f: FieldDesc, name: string)
  {
    !f.ignored && f.listener.Some? && f.listener.value.value == name
  }

  /** The force-final rule of the walk: does this field abort it? */
  predicate ViolatesForceFinal(f: FieldDesc, forceFinals: bool)
  {
    forceFinals && !f.noForceFinal && !f.isFinal
  }

  /** One turn of the field loop, for a listener field that passed the force-final check. */
  function ListenerStep(st: WalkState, f: FieldDesc): Result<WalkState, WalkError>
    requires f.listener.Some?
  {
    if f.declaredType != BiConsumerClass then Err(MustBeBiConsumer(f.name))
    else if f.genericArgs.None? then Err(NotParameterized(f.name))
    else if |f.genericArgs.value| != 2 then Err(MustHaveTwoGenericTypes(f.name))
    else if f.genericArgs.value[0] != f.genericArgs.value[1] then Err(MustHaveIdenticalGenericTypes(f.name))
    else
      var genericType := f.genericArgs.value[0];
      var settingName := f.listener.value.value;
      if f.value.None? || f.value.value.Null? then Ok(st)
      else
        var consumer := f.value.value.id;
        if settingName in st.builderMap then
          var pair := st.builderMap[settingName];
          if pair.b != genericType then Err(ListenerTypeMismatch(f.name, pair.b))
          else
            var attached := pair.a.(listeners := pair.a.listeners + [consumer]);
            Ok(st.(builderMap := st.builderMap[settingName := Pair(attached, pair.b)]))
        else
          Ok(st.(listenerMap := st.listenerMap[settingName := Pair(consumer, genericType)]))
  }

  /** One turn of the field loop, for a setting field that passed the force-final check. */
  function SettingStep(st: WalkState, f: FieldDesc, convention: Convention): Result<WalkState, WalkError>
  {
    var t := Box(f.declaredType);
    var name := SettingName(f.name, convention);
    var builder := DeclarationOf(f, convention, []);
    if name in st.listenerMap then
      var parked := st.listenerMap[name];
      if parked.b != t then Err(SettingListenerMismatch(f.name, parked.b, t))
      else Ok(st.(builderMap := st.builderMap[name := Pair(builder.(listeners := [parked.a]), t)]))
    else
      Ok(st.(builderMap := st.builderMap[name := Pair(builder, t)]))
  }

  /** One turn of the field loop of `parsePojo`. */
  function Step(st: WalkState, f: FieldDesc, convention: Convention, forceFinals: bool): (r: Result<WalkState, WalkError>)
    // every exception names the field being walked
    ensures r.Err? ==> r.error.field == f.name
    // no builder and no parked listener is ever removed
    ensures r.Ok? ==> st.builderMap.Keys <= r.value.builderMap.Keys && st.listenerMap.Keys <= r.value.listenerMap.Keys
    // a listener never creates a setting, and a setting never parks a listener
    ensures r.Ok? && f.listener.Some? ==> r.value.builderMap.Keys == st.builderMap.Keys
    ensures r.Ok? && f.listener.None? ==> r.value.listenerMap == st.listenerMap
  {
    if GetProperties(f).ignored then Ok(st)
    else if ViolatesForceFinal(f, forceFinals) then Err(MustBeFinal(f.name))
    else if f.listener.Some? then ListenerStep(st, f)
    else SettingStep(st, f, convention)
  }

  /** The rest of the field loop, started from state `st`. */
  function WalkFrom(st: WalkState, fields: seq<FieldDesc>, convention: Convention, forceFinals: bool): Result<WalkState, WalkError>
    decreases |fields|
  {
    if fields == [] then Ok(st)
    else
      match Step(st, fields[0], convention, forceFinals)
      case Err(e) => Err(e)
      case Ok(next) => WalkFrom(next, fields[1..], convention, forceFinals)
  }

  /** What `build()` yields for every builder left in `builderMap`, keyed by setting name. */
  function Built(builderMap: map<string, Pair<Declaration, JClass>>): map<string, Declaration>
  {
    map n | n in builderMap :: builderMap[n].a
  }

  /** The field walk as one recursive definition: the built declarations, or the exception that aborted it. */
  function Parse(fields: seq<FieldDesc>, convention: Convention, forceFinals: bool): Result<map<string, Declaration>, WalkError>
  {
    match WalkFrom(EmptyState, fields, convention, forceFinals)
    case Err(e) => Err(e)
    case Ok(st) => Ok(Built(st.builderMap))
  }

  /** `parsePojo(pojo, convention, node, forceFinals)`: the field loop, updating
      `builderMap` and `listenerMap` in place, then building every builder. */
  method ParseFields(fields: seq<FieldDesc>, convention: Convention, forceFinals: bool)
    returns (r: Result<map<string, Declaration>, WalkError>)
    ensures r == Parse(fields, convention, forceFinals)
  {
    var builderMap: map<string, Pair<Declaration, JClass>> := map[];
    var listenerMap: map<string, Pair<Consumer, JClass>> := map[];
    var i := 0;
    while i < |fields|
      invariant 0 <= i <= |fields|
      invariant WalkFrom(EmptyState, fields, convention, forceFinals)
             == WalkFrom(WalkState(builderMap, listenerMap), fields[i..], convention, forceFinals)
    {
      var field := fields[i];
      ghost var current := WalkState(builderMap, listenerMap);
      assert fields[i..][0] == field && fields[i..][1..] == fields[i + 1..];
      assert WalkFrom(current, fields[i..], convention, forceFinals)
          == match Step(current, field, convention, forceFinals)
             case Err(e) => Err(e)
             case Ok(next) => WalkFrom(next, fields[i + 1..], convention, forceFinals);
      var properties := GetProperties(field);
      if properties.ignored {
        assert Step(current, field, convention, forceFinals) == Ok(WalkState(builderMap, listenerMap));
        i := i + 1;
        continue;
      }

      if forceFinals && !properties.noForceFinal && !field.isFinal {
        return Err(MustBeFinal(field.name));
      }

      if field.listener.Some? {
        if field.declaredType != BiConsumerClass {
          return Err(MustBeBiConsumer(field.name));
        }
        var settingName := field.listener.value.value;
        if field.genericArgs.None? {
          return Err(NotParameterized(field.name));
        }
        var genericTypes := field.genericArgs.value;
        if |genericTypes| != 2 {
          return Err(MustHaveTwoGenericTypes(field.name));
        } else if genericTypes[0] != genericTypes[1] {
          return Err(MustHaveIdenticalGenericTypes(field.name));
        }
        var genericType := genericTypes[0];

        if field.value.None? || field.value.value.Null? {
          i := i + 1;
          continue;
        }
        var consumer := field.value.value.id;

        if settingName in builderMap {
          var builderClassPair := builderMap[settingName];
          var builder := builderClassPair.a;
          var clazz := builderClassPair.b;
          if clazz != genericType {
            return Err(ListenerTypeMismatch(field.name, clazz));
          }
          builder := builder.(listeners := builder.listeners + [consumer]);
          builderMap := builderMap[settingName := Pair(builder, clazz)];
        } else {
          listenerMap := listenerMap[settingName := Pair(consumer, genericType)];
        }
        assert Step(current, field, convention, forceFinals) == Ok(WalkState(builderMap, listenerMap));
        i := i + 1;
        continue;
      }

      var fieldType := Box(field.declaredType);
      var name := SettingName(field.name, convention);
      var builder := Declaration(name, fieldType, properties.comment, properties.finalValue, field.value, []);

      if name in listenerMap {
        var consumerClassPair := listenerMap[name];
        if consumerClassPair.b != fieldType {
          return Err(SettingListenerMismatch(field.name, consumerClassPair.b, fieldType));
        }
        assert builder.listeners + [consumerClassPair.a] == [consumerClassPair.a];
        builder := builder.(listeners := builder.listeners + [consumerClassPair.a]);
      }

      builderMap := builderMap[name := Pair(builder, fieldType)];
      assert Step(current, field, convention, forceFinals) == Ok(WalkState(builderMap, listenerMap));
      i := i + 1;
    }
    return Ok(Built(builderMap));
  }

  /** `@Settings(noForceFinals, namingConvention)` on the object's class.
      `namingConvention` is `None` when the convention class has no usable empty constructor. */
  datatype SettingsAnnotation = SettingsAnnotation(noForceFinals: bool, namingConvention: Option<Convention>)

  /** Errors of `parsePojo(Object)`: the rewrapped convention failure, or an error of the walk. */
  datatype PojoError = InvalidNamingConvention | FieldError(cause: WalkError)

  /** `NoNamingConvention`, the default: the field name unchanged. */
  function NoNamingConvention(name: string): Option<string>
  {
    Some(name)
  }

  /** `parsePojo(Object)`: selects the force-finals flag and the naming convention
      from the class's `@Settings` annotation, then walks the fields. */
  method ParsePojo(settings: Option<SettingsAnnotation>, fields: seq<FieldDesc>)
    returns (r: Result<map<string, Declaration>, PojoError>)
    ensures settings.None? ==> r == Lift(Parse(fields, NoNamingConvention, true))
    ensures settings.Some? && settings.value.namingConvention.None? ==> r == Err(InvalidNamingConvention)
    ensures settings.Some? && settings.value.namingConvention.Some? ==>
      r == Lift(Parse(fields, settings.value.namingConvention.value, !settings.value.noForceFinals))
  {
    var forceFinals := true;
    var namingConvention: Convention := NoNamingConvention;
    if settings.Some? {
      if settings.value.noForceFinals {
        forceFinals := false;
      }
      if settings.value.namingConvention.None? {
        return Err(InvalidNamingConvention);
      }
      namingConvention := settings.value.namingConvention.value;
    }
    var walked := ParseFields(fields, namingConvention, forceFinals);
    return Lift(walked);
  }

  /** A walk error seen from `parsePojo(Object)`. */
  function Lift(r: Result<map<string, Declaration>, WalkError>): Result<map<string, Declaration>, PojoError>
  {
    match r
    case Ok(m) => Ok(m)
    case Err(e) => Err(FieldError(e))
  }
}
