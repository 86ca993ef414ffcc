# Fiber: the POJO-to-settings field walker and the map schema type

This project models two parts of the Fiber configuration library in Dafny.

**`PojoSettings.parsePojo`** turns the declared fields of a plain Java object into
configuration settings. It walks the fields in declaration order and keeps two
maps. `builderMap` maps a setting name to its value builder and type.
`listenerMap` maps a setting name to a parked `@Listener` and its type.
For each field, the walk does one of the following:

- It skips `@Setting.Ignored` fields.
- Under force-finals, it rejects any other field that is not `final` and has no
  `@Setting.NoForceFinal`.
- It checks a `@Listener` field: the field must be a `BiConsumer<T, T>`. If its
  setting is already built, the listener is attached to it and the types must
  agree. Otherwise the listener is parked, and a later parked listener for the
  same name replaces it.
- It turns every other field into a builder. The builder is named by the naming
  convention, falling back to the field name when the convention gives `null` or
  `""`. Its type is the boxed field type. It takes the parked listener for its
  name, which must have the same type.

A later setting with the same name replaces the earlier builder. The outer
`parsePojo(Object)` reads `@Settings` to turn force-finals off and to choose the
naming convention.

The model walks a sequence of field descriptors. Each descriptor records what
reflection would report about one field. `PojoSettings.ParseFields` is the loop
itself, written imperatively with the two maps as local variables. It is proved
equal to the recursive definition `PojoSettings.Parse`. The lemmas in
`PojoSettingsProperties` state the pairing and ordering rules. They also give a
complete description of a successful walk:

- There is one declaration per distinct setting name.
- Each declaration is taken from the last field with that name.
- Its listeners are the one parked before the first field with that name,
  followed by every listener declared after the last one.

**`MapSerializableType`** is an immutable schema type for string-keyed maps. It
has a key type, a value type, and minimum and maximum sizes. Its three
constructors delegate with defaults. Its `equals` compares the value type and
both sizes, and ignores the key type. Its `hashCode` hashes those same three
components. The model is a case of a recursive datatype `SType`. The other
schema classes form an opaque case, and their `equals` and `hashCode` are
parameters. The model proves three things: `equals` is an equivalence whenever
it is one on the other classes; it ignores the key type; and equal types have
equal hashes.

Files:

- `wrappers.dfy`: `Option` (Java `null`) and `Result` (thrown exceptions).
- `java_lang.dfy`: `int`, its wrap-around, `Objects.hash`, class objects and primitive boxing.
- `pojo_settings.dfy`: the walker.
- `pojo_settings_properties.dfy`: what the walker guarantees.
- `map_serializable_type.dfy`: the map schema type.

## Model

| member | source | states |
|---|---|---|
| `PojoSettings.ParseFields` | src/main/java/me/zeroeightsix/fiber/annotations/PojoSettings.java:47-154 | The field loop, which updates `builderMap` and `listenerMap` in place and returns early on each exception. It returns exactly what the recursive walk `Parse` gives: the built declarations, or the first error. |
| `PojoSettings.ParsePojo` | src/main/java/me/zeroeightsix/fiber/annotations/PojoSettings.java:26-45 | With no `@Settings`, the walk runs with force-finals on and `NoNamingConvention`. With `@Settings`, force-finals is off exactly when `noForceFinals` is set, and the annotation's convention is used. A convention that cannot be instantiated fails with the rewrapped error before any field is read. |
| `PojoSettings.Step` | src/main/java/me/zeroeightsix/fiber/annotations/PojoSettings.java:51-150 | One turn of the field loop. Every exception it throws names the field being walked. It never removes a builder or a parked listener. A listener field never creates a builder, and a setting field never parks a listener. |
| `PojoSettings.GetComment` | src/main/java/me/zeroeightsix/fiber/annotations/PojoSettings.java:156-162 | The comment is `null` exactly when there is no `@Comment`; otherwise it is the annotation's value. |
| `PojoSettings.GetProperties` | src/main/java/me/zeroeightsix/fiber/annotations/PojoSettings.java:168-176 | The properties record exactly the field's comment and its `Ignored`, `NoForceFinal` and `Final` annotations. |
| `PojoSettings.SettingName` | src/main/java/me/zeroeightsix/fiber/annotations/PojoSettings.java:122-126 | The setting name is the convention's name unless that is `null` or empty; then it is the field name. The result is either the field name or the convention's result, and it is empty only if the field name is. |
| `JavaLang.Box` | src/main/java/me/zeroeightsix/fiber/annotations/PojoSettings.java:107-111 | A primitive field type becomes its wrapper class before any comparison. A reference type is unchanged, and the result is never primitive. |
| `PojoSettingsProperties.IgnoredFieldChangesNothing` | src/main/java/me/zeroeightsix/fiber/annotations/PojoSettings.java:52-53 | An ignored field is skipped before any check. There is no error, and neither map changes. |
| `PojoSettingsProperties.IgnoredFieldsAreInvisible` | src/main/java/me/zeroeightsix/fiber/annotations/PojoSettings.java:51-53 | Removing every ignored field does not change the outcome of the walk, from any state. |
| `PojoSettingsProperties.ForceFinalAppliesToEveryField` | src/main/java/me/zeroeightsix/fiber/annotations/PojoSettings.java:55-58 | A non-ignored field fails with "must be final" if and only if force-finals is on, the field is not final, and it lacks `NoForceFinal`. This includes listener fields. |
| `PojoSettingsProperties.NonFinalFieldAbortsWalk` | src/main/java/me/zeroeightsix/fiber/annotations/PojoSettings.java:51-58 | One such field anywhere in the class makes the whole walk fail. |
| `PojoSettingsProperties.NoForceFinalsNeverRejectsNonFinal` | src/main/java/me/zeroeightsix/fiber/annotations/PojoSettings.java:28-34 | With force-finals off, the walk never fails with "must be final". |
| `PojoSettingsProperties.ListenerMustBeWellShaped` | src/main/java/me/zeroeightsix/fiber/annotations/PojoSettings.java:60-75 | A field that is not a `BiConsumer` fails with "must be a BiConsumer". A listener field fails on its own shape exactly when it is not `BiConsumer<T, T>`: raw, not two type arguments, or two different ones. |
| `PojoSettingsProperties.NullListenerChangesNothing` | src/main/java/me/zeroeightsix/fiber/annotations/PojoSettings.java:77-90 | A well-formed listener whose value is `null` or unreadable changes neither map. |
| `PojoSettingsProperties.ListenerAfterItsSetting` | src/main/java/me/zeroeightsix/fiber/annotations/PojoSettings.java:92-99 | When the target setting is already built, the walk goes on if and only if the listener's type equals the setting's type. The listener is then appended to that builder and nothing else changes. Otherwise the walk fails with the setting's type. |
| `PojoSettingsProperties.ListenerBeforeItsSetting` | src/main/java/me/zeroeightsix/fiber/annotations/PojoSettings.java:100-102 | When the target setting is not yet built, the listener and its type are parked under the target name. This replaces any earlier parked listener. No other parked listener and no builder changes. |
| `PojoSettingsProperties.SettingTakesParkedListener` | src/main/java/me/zeroeightsix/fiber/annotations/PojoSettings.java:107-150 | A setting field succeeds if and only if no listener is parked for its name, or the parked listener's type equals the boxed field type. It then stores, under its setting name, the field's facts with exactly the parked listener, if any. Other builders and the parked listeners are unchanged. |
| `PojoSettingsProperties.ParseResultDescribedByFields` | src/main/java/me/zeroeightsix/fiber/annotations/PojoSettings.java:47-154 | After a successful walk there is one declaration for each distinct setting name, and no other. Each is built from the last field with that name. Its listeners are the last one parked before the first field with that name, then every non-null listener declared after the last one. |
| `PojoSettingsProperties.ListenerEitherSideOfSetting` | src/main/java/me/zeroeightsix/fiber/annotations/PojoSettings.java:92-147 | A listener before its setting and a listener after it give the same result: the setting with that one listener. If the types differ, the walk fails in both orders. |
| `PojoSettingsProperties.LaterParkedListenerReplaces` | src/main/java/me/zeroeightsix/fiber/annotations/PojoSettings.java:101 | Of two listeners parked for one setting, only the later one is attached. The earlier one is not checked against the setting's type. |
| `PojoSettingsProperties.LaterSettingReplacesEarlier` | src/main/java/me/zeroeightsix/fiber/annotations/PojoSettings.java:150-153 | Two fields with one setting name build the same result as the later field alone. |
| `PojoSettingsProperties.ListenerBetweenSameNamedSettingsIsDropped` | src/main/java/me/zeroeightsix/fiber/annotations/PojoSettings.java:92-150 | A listener attached to the first of two same-named settings is lost when the second replaces the first builder. |
| `PojoSettingsProperties.DefaultConventionKeepsFieldNames` | src/main/java/me/zeroeightsix/fiber/annotations/PojoSettings.java:122-126 | Under the default convention, every setting is named after its field. |
| `MapSerializableType.MapWithBounds` | src/main/java/me/zeroeightsix/fiber/api/schema/type/MapSerializableType.java:27-50 | The full constructor stores key type, value type, min size and max size exactly as given, without validation. The getters return them unchanged. |
| `MapSerializableType.MapWithKey` | src/main/java/me/zeroeightsix/fiber/api/schema/type/MapSerializableType.java:22-24 | The two-argument constructor keeps both types, a `null` key type included, and uses min size 0 and max size `Integer.MAX_VALUE`. |
| `MapSerializableType.MapOf` | src/main/java/me/zeroeightsix/fiber/api/schema/type/MapSerializableType.java:18-20 | The one-argument constructor uses `DEFAULT_STRING` keys and the same default bounds. |
| `MapSerializableType.GetConstraint` | src/main/java/me/zeroeightsix/fiber/api/schema/type/MapSerializableType.java:33 | The checker is bound to this very type. Being a function of the immutable type, it is the same on every call. |
| `MapSerializableType.Equals` | src/main/java/me/zeroeightsix/fiber/api/schema/type/MapSerializableType.java:62-70 | The same object is always equal, whatever `equals` does on other classes. An equal object is never `null` and is always of the receiver's class. |
| `MapSerializableType.HashCode` | src/main/java/me/zeroeightsix/fiber/api/schema/type/MapSerializableType.java:72-75 | A map type's hash is `Objects.hash(valueType, minSize, maxSize)`. That is Java's `Arrays.hashCode` of the three values, folding each in as `31 * result + value` with `int` wrap-around at every step, and with `0` for a `null` value type. |
| `MapSerializableType.MapEqualsIffComponentsEqual` | src/main/java/me/zeroeightsix/fiber/api/schema/type/MapSerializableType.java:66-69 | Two map types are equal if and only if their min sizes, their max sizes and (by `Objects.equals`) their value types are equal. Changing the key type never changes the answer. |
| `MapSerializableType.KeyTypeIgnored` | src/main/java/me/zeroeightsix/fiber/api/schema/type/MapSerializableType.java:62-75 | Map types that differ only in their key type are equal and have the same hash. |
| `MapSerializableType.EqualsReflexive` | src/main/java/me/zeroeightsix/fiber/api/schema/type/MapSerializableType.java:62-70 | `equals` is reflexive on all schema types when it is on the other classes. |
| `MapSerializableType.EqualsSymmetric` | src/main/java/me/zeroeightsix/fiber/api/schema/type/MapSerializableType.java:62-70 | `equals` is symmetric when it is on the other classes. |
| `MapSerializableType.EqualsTransitive` | src/main/java/me/zeroeightsix/fiber/api/schema/type/MapSerializableType.java:62-70 | `equals` is transitive when it is on the other classes. |
| `MapSerializableType.EqualsIsEquivalence` | src/main/java/me/zeroeightsix/fiber/api/schema/type/MapSerializableType.java:62-70 | `equals` is an equivalence relation on schema types when it is one on the other classes. |
| `MapSerializableType.EqualTypesHaveEqualHashes` | src/main/java/me/zeroeightsix/fiber/api/schema/type/MapSerializableType.java:62-75 | Equal schema types have equal `hashCode`s when that holds of the other classes. The map hash reads exactly the three components that `equals` compares. |

## Left out

- Reflection is replaced by a field descriptor. This covers `getDeclaredFields`, `isAnnotationPresent`, `getGenericType`, `setAccessible` and `field.get`. The order of the descriptor sequence is the order `getDeclaredFields` returns.
- A field whose read throws `IllegalAccessException` has the value "unreadable". Its stack trace is printed, which is I/O and not modelled. The walk then skips the listener, or builds the setting without a default, as the source does.
- Listener type arguments are modelled as classes only. Wildcards and parameterized type arguments, and the `ClassCastException` a cast of such an argument to `Class` would throw, are not modelled.
- The source compares the two type arguments by object identity. The model compares them by equality, which agrees for `Class` objects.
- A raw `BiConsumer` listener field makes the cast to `ParameterizedType` throw a `ClassCastException`. It is modelled as the error `NotParameterized`, so, like the other exceptions, it ends the walk.
- Exception messages are not modelled. Each error names the field's simple name, not its declaring class.
- `ConfigNode.builder`, `ConfigValueBuilder`, `build()`, `ConfigOperations.mergeTo` and `applyToIR` are other classes of the library and are not modelled. A builder is the record of facts it was given. A listener is the identity of the `BiConsumer` object.
- The walk returns a map from setting name to declaration. The source returns a list in `HashMap` order, which `parsePojo(Object)` discards. Whatever `build()` does to the node is not modelled.
- `PojoSettings.ParsePojo` returns those declarations and not the `ConfigNode`.
- Instantiating the naming convention reflectively is left out. The annotation carries the convention, or "none" when the class has no usable empty constructor. In that case `parsePojo(Object)` fails with `InvalidNamingConvention` before any field is read.
- `NoNamingConvention` is not part of this model. It is taken to return the name unchanged. Under the fallback rule, a convention that returns `null` would give the same names.
- `FieldProperties.constraintSet` is left out. It is always empty, and nothing reads it.
- `PojoSettingsProperties.ParseResultDescribedByFields` describes the result of a successful walk only. Which field makes a walk fail is stated field by field, in the other lemmas of `PojoSettingsProperties`, not as one description of failure.
- `MapSerializableType.serialize` is left out. It dispatches into a `TypeSerializer`, which is outside this model.
- The internals of `MapTypeChecker` are left out. The checker is modelled only as a value bound to its type.
- Java's `this == o` and the identity test inside `Objects.equals` are modelled as equality of datatype values. Two distinct but identical objects are therefore treated like one object.
- The other `SerializableType` classes are an opaque case. Their `equals` and `hashCode` are parameters. Their `equals` is taken to be false against `null` and against map types.
- Two listeners parked for one name are never compared with each other. The later one replaces the earlier one, and only the later one is checked against the setting's type (`LaterParkedListenerReplaces`). A listener that arrives after its setting is checked against the setting's type (`ListenerAfterItsSetting`).
- The tests in the source tree target a newer annotation API, which rejects *final* fields. This walker rejects *non-final* fields under force-finals. The model follows `PojoSettings` as written.
- The constraint engine, the configuration tree and its merge, and serialization are outside the modelled files.
