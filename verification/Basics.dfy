/** Small datatypes that several modules share. */
module Basics {
  datatype Option<T> = None | Some(value: T)

  /** What a parse-tree node carries: an integer kept in the node, the text of its token, or neither. */
  datatype Payload = IntValue(i: int) | Token(z: string) | NoToken
}
