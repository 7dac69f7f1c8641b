/** The XML attributes an object is created from. The Java code receives a
    `Map<String, String>` and parses each string where it is used; here every
    entry arrives already parsed, carrying each reading the code can take of
    it. */
module Attributes {
  import opened Vectors

  /** One attribute value: its raw text and its readings through
      `Double.parseDouble`, `Integer.parseInt` and the `Point3D`/`Vec`/`RGB`
      string constructors. */
  datatype Value = Value(text: string, number: real, integer: int, triple: Triple)

  type Attrs = map<string, Value>

  /** A triple attribute, or `default` when the key is absent. */
  function TripleOr(attrs: Attrs, key: string, default: Triple): Triple {
    if key in attrs then attrs[key].triple else default
  }

  /** A double attribute, or `default` when the key is absent. */
  function NumberOr(attrs: Attrs, key: string, default: real): real {
    if key in attrs then attrs[key].number else default
  }

  /** An int attribute, or `default` when the key is absent. */
  function IntegerOr(attrs: Attrs, key: string, default: int): int {
    if key in attrs then attrs[key].integer else default
  }
}
