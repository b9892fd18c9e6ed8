/** Names as the server compares them: strings of bytes, sometimes without regard to the case of letters. */
module Names {

  type Byte = b: int | 0 < b < 256 witness 1
  type Name = seq<Byte>

  function UpperByte(c: Byte): Byte { if 97 <= c <= 122 then c - 32 else c }

  /** Two names differ at most in the case of letters if they agree in upper case. */
  function Upper(name: Name): Name { seq(|name|, i requires 0 <= i < |name| => UpperByte(name[i])) }
}
