/** Text helpers shared by the two parsers. */
module Strings {

  /** The parts with one separator between neighbours. */
  function Join(parts: seq<string>, separator: char): string {
    if parts == [] then "" else if |parts| == 1 then parts[0] else parts[0] + [separator] + Join(parts[1..], separator)
  }
}
