/** Run-time values. A heap object other than a string stands for all that are equal to it. */
module Values {
  datatype Option<+T> = None | Some(value: T)

  /** A name or a string value. */
  datatype Text = Text(chars: string)

  const NoName := Text("")

  type uint32 = x: int | 0 <= x < 0x1_0000_0000

  /**
    What the hash slot of an object's type gives. Lists, maps and sets have no slot; that of a tuple fails
    when an element cannot be hashed.
  */
  datatype ObjHash = NoHash | BadHash | GoodHash(h: uint32)

  datatype Value = Nil | Bool(b: bool) | Int(i: int) | Str(s: Text) | Obj(id: nat, hash: ObjHash)
}
