/** Item encodings: pickle or JSON in the program, any round-tripping pair of functions here. */
module Codec {

  datatype Codec<!T(!new)> = Codec(encode: T -> string, decode: string -> T) {

    /** Encodings are never empty and decode to what was encoded. */
    ghost predicate RoundTrips() {
      forall x {:trigger encode(x)} :: decode(encode(x)) == x && encode(x) != ""
    }
  }
}
