/** Types and constants shared by the modules of the LWM2M model. */
module Core {
  datatype Option<+T> = None | Some(value: T)

  type byte = x: int | 0 <= x < 0x100
  type uint16 = x: int | 0 <= x < 0x1_0000

  // wakaama/liblwm2m.h: the largest identifier is also used as "not an identifier"
  const MAX_ID: uint16 := 0xFFFF

  // what ends a text in memory
  const NUL := 0 as char

  const SECURITY_OBJECT: uint16 := 0
  const SERVER_OBJECT: uint16 := 1

  /** The handle of a connection to a peer. */
  type Session = nat

  // wakaama/er-coap-13/er-coap-13.h and wakaama/liblwm2m.h: methods and response codes
  const GET: byte := 1
  const POST: byte := 2
  const PUT: byte := 3
  const DELETE: byte := 4

  const NO_ERROR: byte := 0x00
  const IGNORE: byte := 0x01
  const CREATED: byte := 0x41
  const DELETED: byte := 0x42
  const CHANGED: byte := 0x44
  const CONTENT: byte := 0x45
  const BAD_REQUEST: byte := 0x80
  const UNAUTHORIZED: byte := 0x81
  const BAD_OPTION: byte := 0x82
  const NOT_FOUND: byte := 0x84
  const METHOD_NOT_ALLOWED: byte := 0x85
  const NOT_ACCEPTABLE: byte := 0x86
  const INTERNAL_ERROR: byte := 0xA0
  const NOT_IMPLEMENTED: byte := 0xA1
}
