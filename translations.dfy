/**
  The Russian display names of unit types, used by the legend and the unit
  popup: a fixed table, and a lookup that falls back to the type itself for a
  type the table does not name.
 */
module Translations {

  /** `unitTypeTranslations`. */
  const UnitTypeTranslations: map<string, string> := map[
    "flat" := "Квартира",
    "apartment" := "Аппартаменты",
    "parking" := "Парковка",
    "commercial" := "Офис",
    "warehouse" := "Кладовка"
  ]

  /** `getUnitTypeTranslation(type)`, reading only the table's own entries:
      the table's name for a type it holds, the type itself otherwise (also
      when the table's entry is the empty string, which JavaScript's `||`
      treats as missing). */
  function GetUnitTypeTranslation(t: string): (r: string)
    ensures t in UnitTypeTranslations && UnitTypeTranslations[t] != "" ==> r == UnitTypeTranslations[t]
    ensures t !in UnitTypeTranslations ==> r == t
  {
    if t in UnitTypeTranslations && UnitTypeTranslations[t] != "" then UnitTypeTranslations[t] else t
  }

  /** The table names exactly the five types the add-unit form offers. */
  lemma TableKeys()
    ensures UnitTypeTranslations.Keys == {"flat", "apartment", "parking", "commercial", "warehouse"}
    ensures forall t :: t in UnitTypeTranslations ==> UnitTypeTranslations[t] != ""
  {
  }

  /** Every type the table names is shown under its Russian name. */
  lemma KnownTypes()
    ensures GetUnitTypeTranslation("flat") == "Квартира"
    ensures GetUnitTypeTranslation("apartment") == "Аппартаменты"
    ensures GetUnitTypeTranslation("parking") == "Парковка"
    ensures GetUnitTypeTranslation("commercial") == "Офис"
    ensures GetUnitTypeTranslation("warehouse") == "Кладовка"
  {
  }

  /** A type the table does not name is shown as it is; the renderer's colour
      table calls storage rooms "storage", which the table does not name. */
  lemma UnknownTypes(t: string)
    requires t !in UnitTypeTranslations
    ensures GetUnitTypeTranslation(t) == t
    ensures GetUnitTypeTranslation("storage") == "storage"
  {
  }

  /** A shown name is never empty unless the type itself is. */
  lemma NonEmptyName(t: string)
    ensures GetUnitTypeTranslation(t) == "" <==> t == ""
  {
    TableKeys();
  }

  // ---------------------------------------------------------------------------
  // The lookup as JavaScript performs it

  /** What a property read on an object literal yields: an own string entry, a
      non-string value inherited from `Object.prototype`, or nothing. */
  datatype JsValue = JsString(s: string) | JsNonString | JsUndefined

  /** The property names every object literal inherits from `Object.prototype`. */
  const InheritedNames: set<string> := {
    "constructor", "hasOwnProperty", "isPrototypeOf", "propertyIsEnumerable",
    "toLocaleString", "toString", "valueOf", "__proto__",
    "__defineGetter__", "__defineSetter__", "__lookupGetter__", "__lookupSetter__"
  }

  /** `unitTypeTranslations[type]`, following the prototype chain. */
  function PropertyRead(t: string): (r: JsValue)
    ensures r.JsString? <==> t in UnitTypeTranslations
    ensures r == JsNonString <==> t !in UnitTypeTranslations && t in InheritedNames
  {
    if t in UnitTypeTranslations then JsString(UnitTypeTranslations[t])
    else if t in InheritedNames then JsNonString
    else JsUndefined
  }

  /** `unitTypeTranslations[type] || type`, as written. */
  function TranslationAsWritten(t: string): JsValue {
    match PropertyRead(t)
    case JsString(s) => if s != "" then JsString(s) else JsString(t)
    case JsNonString => JsNonString
    case JsUndefined => JsString(t)
  }

  /** The unit type "constructor" makes the lookup as written return the
      inherited `Object` function instead of a string. */
  lemma ConstructorIsNotAString()
    ensures TranslationAsWritten("constructor") == JsNonString
  {
  }

  /** The own-entry lookup agrees with the lookup as written on every type
      except the inherited property names, and always yields a string. */
  lemma AsWrittenAgreesElsewhere(t: string)
    ensures TranslationAsWritten(t).JsString? <==> t in UnitTypeTranslations || t !in InheritedNames
    ensures TranslationAsWritten(t).JsString? ==> TranslationAsWritten(t).s == GetUnitTypeTranslation(t)
  {
  }
}
