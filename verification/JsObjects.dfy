/** What looking up a key in a plain JavaScript object finds besides its own keys. */
module JsObjects {
  /** The properties every plain object inherits; all of them match PLUGIN_ID_PATTERN. */
  const INHERITED: set<string> := {
    "constructor", "__proto__", "toString", "toLocaleString", "valueOf", "hasOwnProperty", "isPrototypeOf",
    "propertyIsEnumerable", "__defineGetter__", "__defineSetter__", "__lookupGetter__", "__lookupSetter__"
  }
}
