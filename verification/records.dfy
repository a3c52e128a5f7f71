/**
 * The shapes of data exchanged with the remote certificate store and
 * between the components.
 */
module Records {

  /**
   * A certificate row or an in-progress draft, as a JavaScript object with
   * text properties: property name to value. A property that is null or
   * missing is absent from the map.
   */
  type Fields = map<string, string>

  /** A stored certificate row: the identifier the store assigned and its other columns. */
  datatype Certificate = Certificate(id: string, fields: Fields)

  /** JavaScript truthiness of a text property: it is there and it is not the empty string. */
  predicate Present(fields: Fields, name: string)
    ensures Present(fields, name) ==> name in fields && |fields[name]| > 0
    ensures name !in fields ==> !Present(fields, name)
  {
    name in fields && fields[name] != ""
  }

  /**
   * `{ ...fields, [name]: value }`: the object with `name` set to `value`,
   * added if it was missing, and every other property as it was.
   */
  function With(fields: Fields, name: string, value: string): (r: Fields)
    ensures name in r && r[name] == value
    ensures r.Keys == fields.Keys + {name}
    ensures forall k :: k in fields && k != name ==> r[k] == fields[k]
  {
    fields[name := value]
  }

  /** Setting a property twice keeps only the second value. */
  lemma WithTwice(fields: Fields, name: string, first: string, second: string)
    ensures With(With(fields, name, first), name, second) == With(fields, name, second)
  {
  }

  /** Setting two different properties gives the same object in either order. */
  lemma WithCommutes(fields: Fields, a: string, x: string, b: string, y: string)
    requires a != b
    ensures With(With(fields, a, x), b, y) == With(With(fields, b, y), a, x)
  {
  }
}
