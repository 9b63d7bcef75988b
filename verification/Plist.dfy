// Property lists: the values both protocols carry, and the library that reads and writes them.

module Plist {
  import opened Wrappers
  import opened Rpc

  /** A property-list integer. */
  type PlistInt = i: int | -0x8000_0000_0000_0000 <= i < 0x1_0000_0000_0000_0000

  /** `Other` stands for the kinds of values nobody looks into here. */
  datatype Value =
    | Dictionary(fields: seq<Field>)
    | Data(bytes: Bytes)
    | Text(text: string)
    | Integer(number: PlistInt)
    | Other(image: Bytes)

  datatype Field = Field(key: string, value: Value)

  function Lookup(fields: seq<Field>, key: string): Option<Value> {
    if fields == [] then None
    else if fields[0].key == key then Some(fields[0].value)
    else Lookup(fields[1..], key)
  }

  /** The library: `read` yields nothing for bytes that are no property list. */
  datatype Library = Library(read: Bytes -> Option<Value>, write: Value -> Bytes)

  /** Dictionaries hold no key twice, at any depth. */
  predicate WellFormed(v: Value)
    decreases v
  {
    match v
    case Dictionary(fields) =>
      && (forall i, j | 0 <= i < |fields| && 0 <= j < |fields| && fields[i].key == fields[j].key :: i == j)
      && (forall i | 0 <= i < |fields| :: WellFormed(fields[i].value))
    case _ => true
  }

  /** What is assumed of it: writing loses nothing and never yields the empty string. */
  ghost predicate Lawful(lib: Library) {
    forall v: Value | WellFormed(v) :: lib.read(lib.write(v)) == Some(v) && lib.write(v) != []
  }
}
