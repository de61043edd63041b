/** The declarative widget nodes a tree build produces (lib/core/dsl.ts). */
module Dsl {
  import HList

  /** A widget's identity: its path of scope names, innermost first. */
  type Id = HList.HList<string>

  /** `tr` template text: the literal parts and the interpolated values, kept apart. */
  datatype TranslatableString = TranslatableString(strings: seq<string>, values: seq<string>)

  /** The node kinds: text, button, container, list and input, each with its own path. */
  datatype Dsl =
    | Text(id: Id, text: TranslatableString)
    | Button(id: Id, text: TranslatableString)
    | Container(id: Id, children: seq<Dsl>)
    | List(id: Id, children: seq<Dsl>)
    | Input(id: Id, value: string, enabled: bool)
}
