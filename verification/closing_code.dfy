/**
 * `ClosingCode`: an immutable (status id, message) pair telling why a
 * connection to the maritime cloud was closed. Five codes are catalogued;
 * `Create` builds any other. Java does not override `equals` for this
 * class, so the model compares codes by their two fields (datatype
 * equality), never by object identity.
 */
module ClosingCodes {
  import opened Java

  /** A closing code; `message` is `None` when the Java message is `null`. */
  datatype ClosingCode = ClosingCode(id: Int32, message: Option<string>)

  /** The connection was closed normally. */
  const NORMAL: ClosingCode := ClosingCode(1000, Some("Normal closure"))
  /** The peer received a type of data it cannot accept. */
  const BAD_DATA: ClosingCode := ClosingCode(1003, Some("Bad data"))
  /** Another client connected with the same identity, so this one was dropped. */
  const DUPLICATE_CONNECT: ClosingCode := ClosingCode(4012, Some("Duplicate connect"))
  const WRONG_MESSAGE: ClosingCode := ClosingCode(4100, Some("Wrong msgtype"))
  const CONNECT_CANCELLED: ClosingCode := ClosingCode(4101, Some("Connect Cancelled"))

  /** The catalogue, in declaration order. */
  function Catalogue(): (r: seq<ClosingCode>)
    ensures |r| == 5
    ensures forall i, j :: 0 <= i < j < |r| ==> r[i].id != r[j].id
  {
    [NORMAL, BAD_DATA, DUPLICATE_CONNECT, WRONG_MESSAGE, CONNECT_CANCELLED]
  }

  /**
   * Status codes defined in section 7.4.1 of RFC 6455, including the
   * reserved values 1004, 1005, 1006 and 1015 that an endpoint must not send.
   */
  predicate IsRfc6455Defined(id: int)
  {
    id in {1000, 1001, 1002, 1003, 1004, 1005, 1006, 1007, 1008, 1009, 1010, 1011, 1015}
  }

  /** Section 7.4.2 of RFC 6455 reserves 4000-4999 for private use. */
  predicate IsPrivateUse(id: int)
  {
    4000 <= id <= 4999
  }

  /** The private constructor and the two getters: what goes in comes out. */
  function GetId(c: ClosingCode): (r: Int32)
    ensures ClosingCode(r, c.message) == c
  {
    c.id
  }

  function GetMessage(c: ClosingCode): (r: Option<string>)
    ensures ClosingCode(c.id, r) == c
  {
    c.message
  }

  /**
   * Reconnect advice. The source singles out 1000 ("closed normally") and
   * then answers `false` on both paths, so no code, catalogued or created,
   * is reconnectable.
   */
  function IsReconnectable(c: ClosingCode): (r: bool)
    ensures !r
  {
    if c.id == 1000 then false else false
  }

  /** A new code with the same status id and the given message. */
  function WithMessage(c: ClosingCode, message: Option<string>): (r: ClosingCode)
    ensures r.id == c.id && r.message == message
  {
    ClosingCode(c.id, message)
  }

  /** The unchecked factory: any `int` id, any message, even `null`. */
  function Create(id: Int32, message: Option<string>): (r: ClosingCode)
    ensures GetId(r) == id && GetMessage(r) == message
  {
    ClosingCode(id, message)
  }

  /** The catalogue holds exactly these five (id, message) pairs. */
  lemma CatalogueContents()
    ensures Catalogue() == [
      Create(1000, Some("Normal closure")),
      Create(1003, Some("Bad data")),
      Create(4012, Some("Duplicate connect")),
      Create(4100, Some("Wrong msgtype")),
      Create(4101, Some("Connect Cancelled"))]
  {
  }

  /**
   * The first two catalogued ids are RFC 6455 close codes; the other three
   * lie in the private-use range.
   */
  lemma CatalogueIdRanges()
    ensures IsRfc6455Defined(NORMAL.id) && IsRfc6455Defined(BAD_DATA.id)
    ensures forall c | c in [DUPLICATE_CONNECT, WRONG_MESSAGE, CONNECT_CANCELLED] ::
      IsPrivateUse(c.id) && !IsRfc6455Defined(c.id)
  {
  }

  /** No code advises reconnecting, not even a normal closure. */
  lemma NothingIsReconnectable()
    ensures forall c: ClosingCode :: !IsReconnectable(c)
    ensures forall c | c in Catalogue() :: !IsReconnectable(c)
  {
  }

  /** `withMessage` leaves the id alone and only the last message counts. */
  lemma WithMessageLastWriteWins(c: ClosingCode, a: Option<string>, b: Option<string>)
    ensures WithMessage(WithMessage(c, a), b) == WithMessage(c, b)
    ensures GetId(WithMessage(c, a)) == GetId(c)
  {
  }

  /** Re-attaching a code's own message yields an equal code. */
  lemma WithOwnMessage(c: ClosingCode)
    ensures WithMessage(c, GetMessage(c)) == c
    ensures Create(GetId(c), GetMessage(c)) == c
  {
  }
}
