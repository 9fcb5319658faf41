/**
 * Channel resolution for broadcast messages. Every broadcast message type
 * must declare `public static final String CHANNEL`; the Java code checks
 * this by reflection. Here a message type is described by its canonical
 * name and by the `CHANNEL` field it declares or inherits, and the loaded
 * message types (found by a `ServiceLoader` in Java) are a given sequence.
 */
module Broadcast {
  import opened Java

  /**
   * The modifiers, the declared type and the value of a `CHANNEL` field,
   * and whether `Field.get` may read it from `BroadcastMessage`'s package
   * (it may not when the class declaring the field is inaccessible there).
   */
  datatype FieldDescriptor = FieldDescriptor(
    isFinal: bool,
    isStatic: bool,
    isPublic: bool,
    isString: bool,
    accessible: bool,
    value: Option<string>)  // meaningful only when isString; None is null

  /**
   * A message class: `getCanonicalName()` (null for anonymous classes), the
   * `CHANNEL` field the class declares itself, and the public `CHANNEL`
   * field that `Class.getField` reaches first among its superinterfaces and
   * superclasses, if any.
   */
  datatype MessageType = MessageType(
    canonicalName: Option<string>,
    channelField: Option<FieldDescriptor>,
    inheritedField: Option<FieldDescriptor>)

  /** `getCanonicalName()` as string concatenation prints it. */
  function TypeName(t: MessageType): string
  {
    match t.canonicalName
    case Some(n) => n
    case None => "null"
  }

  /** Why a message type's `CHANNEL` field is rejected, one per check. */
  datatype ChannelError = NoChannelField | NotFinal | NotStatic | NotPublic | NotString | Inaccessible
  {
    /**
     * The message of what is thrown: a `RuntimeException` naming the type
     * for the five checks, an `Error` when the field cannot be read.
     */
    function Message(t: MessageType): (r: string)
      ensures NoChannelField? ==> |r| >= |TypeName(t)| && r[|r| - |TypeName(t)|..] == TypeName(t)
      ensures IsCheck() ==>
        |r| >= 23 + |TypeName(t)| && r[..23] == "Field named CHANNEL on " && r[23..23 + |TypeName(t)|] == TypeName(t)
    {
      match this
      case NoChannelField => "No field named CHANNEL found on " + TypeName(t)
      case Inaccessible => "oops, should never happen " + "since the field is public"
      case _ => "Field named CHANNEL on " + TypeName(t) + Requirement()
    }

    /** One of the four modifier and type checks on a field that was found. */
    predicate IsCheck()
    {
      NotFinal? || NotStatic? || NotPublic? || NotString?
    }

    /** What a failed check says the field must be. */
    function Requirement(): string
      requires IsCheck()
    {
      match this
      case NotFinal => " must be final"
      case NotStatic => " must be static"
      case NotPublic => " must be public"
      case NotString => " must be of a String type"
    }
  }

  /** Two different errors about the same type never share a message. */
  lemma MessagesDistinct(t: MessageType, e: ChannelError, f: ChannelError)
    requires e != f
    ensures e.Message(t) != f.Message(t)
  {
    var m, n := e.Message(t), f.Message(t);
    if m == n {
      FirstLetter(t, e);
      FirstLetter(t, f);
    }
  }

  /** The first letter of a message tells the three kinds of failure apart. */
  lemma FirstLetter(t: MessageType, e: ChannelError)
    ensures |e.Message(t)| > 0
    ensures e.Message(t)[0] == if e.NoChannelField? then 'N' else if e.Inaccessible? then 'o' else 'F'
  {
    var name := TypeName(t);
    match e
    case NoChannelField =>
      assert e.Message(t) == "No field named CHANNEL found on " + name;
    case Inaccessible =>
      assert e.Message(t) == "oops, should never happen " + "since the field is public";
    case _ =>
      assert e.Message(t) == "Field named CHANNEL on " + name + e.Requirement();
  }

  /** A field reflection can report: present and public. */
  predicate IsPublicField(f: Option<FieldDescriptor>)
  {
    f.Some? && f.value.isPublic
  }

  /**
   * `Class.getField("CHANNEL")`: reflection only reports public fields,
   * and a public field the class declares itself hides any inherited one.
   */
  function GetField(t: MessageType): (r: Option<FieldDescriptor>)
    ensures r.Some? <==> IsPublicField(t.channelField) || IsPublicField(t.inheritedField)
    ensures r.Some? ==> r.value.isPublic
    ensures IsPublicField(t.channelField) ==> r == t.channelField
    ensures !IsPublicField(t.channelField) && r.Some? ==> r == t.inheritedField
  {
    if IsPublicField(t.channelField) then t.channelField
    else if IsPublicField(t.inheritedField) then t.inheritedField
    else None
  }

  /** The shape every broadcast message type must give its `CHANNEL` field. */
  predicate WellFormed(f: FieldDescriptor)
  {
    f.isFinal && f.isStatic && f.isPublic && f.isString
  }

  /**
   * `getChannelField(type)`: look the field up, then check final, static,
   * public and String in that order, failing on the first check that does
   * not hold; otherwise read the field's value (possibly null), which fails
   * when the field's declaring class is not accessible.
   */
  function GetChannelField(t: MessageType): (r: Result<Option<string>, ChannelError>)
    ensures r.Success? <==> GetField(t).Some? && WellFormed(GetField(t).value) && GetField(t).value.accessible
    ensures r.Success? ==> r.value == GetField(t).value.value
    ensures r == Failure(NoChannelField) <==> GetField(t).None?
    ensures r == Failure(NotFinal) <==> GetField(t).Some? && !GetField(t).value.isFinal
    ensures r == Failure(NotStatic) <==>
      GetField(t).Some? && GetField(t).value.isFinal && !GetField(t).value.isStatic
    ensures r == Failure(NotString) <==>
      GetField(t).Some? && GetField(t).value.isFinal && GetField(t).value.isStatic && !GetField(t).value.isString
    ensures r == Failure(Inaccessible) <==>
      GetField(t).Some? && WellFormed(GetField(t).value) && !GetField(t).value.accessible
    ensures r != Failure(NotPublic)
  {
    match GetField(t)
    case None => Failure(NoChannelField)
    case Some(f) =>
      if !f.isFinal then Failure(NotFinal)
      else if !f.isStatic then Failure(NotStatic)
      else if !f.isPublic then Failure(NotPublic)
      else if !f.isString then Failure(NotString)
      else if !f.accessible then Failure(Inaccessible)
      else Success(f.value)
  }

  /**
   * A non-public `CHANNEL` field is never reported as "must be public": it
   * is missing when no supertype has a public one, and otherwise the
   * inherited field is the one checked.
   */
  lemma NonPublicFieldIsMissing(t: MessageType)
    requires t.channelField.Some? && !t.channelField.value.isPublic
    ensures !IsPublicField(t.inheritedField) ==> GetChannelField(t) == Failure(NoChannelField)
    ensures IsPublicField(t.inheritedField) ==>
      GetChannelField(t) == GetChannelField(MessageType(t.canonicalName, t.inheritedField, None))
  {
  }

  /** A public `CHANNEL` field a type declares itself hides whatever it inherits. */
  lemma OwnPublicFieldHides(t: MessageType, g: Option<FieldDescriptor>)
    requires IsPublicField(t.channelField)
    ensures GetChannelField(t.(inheritedField := g)) == GetChannelField(t)
  {
  }

  /** `findChannelForMessageType(type)`: exactly what `getChannelField` returns or throws. */
  function FindChannelForMessageType(t: MessageType): (r: Result<Option<string>, ChannelError>)
    ensures r == GetChannelField(t)
  {
    var channel := GetChannelField(t);
    channel
  }

  /** `channel()` on a message: its class's canonical name. */
  function Channel(t: MessageType): (r: Option<string>)
    ensures r == t.canonicalName
  {
    t.canonicalName
  }

  /**
   * `channel()` does not read the `CHANNEL` field: a well-formed message
   * type can be sent on a channel other than the one it declares.
   */
  lemma ChannelIgnoresChannelField(t: MessageType, f: Option<FieldDescriptor>)
    ensures Channel(t.(channelField := f)) == Channel(t)
    ensures var u := MessageType(Some("dk.Position"), Some(FieldDescriptor(true, true, true, true, true, Some("position"))), None);
      GetChannelField(u) == Success(Some("position")) && Channel(u) == Some("dk.Position")
  {
  }

  /** How the search over the loaded message types can stop early. */
  datatype FindError =
    | InvalidMessageType(messageType: MessageType, error: ChannelError)  // getChannelField threw
    | NullPointer(exception: NullPointerException)                      // equals called on a null channel value

  /** A loaded type the search steps over: valid, non-null channel, not the target. */
  predicate Passes(t: MessageType, target: string)
  {
    var c := GetChannelField(t);
    c.Success? && c.value.Some? && c.value.value != target
  }

  /**
   * The loop of `findClass`, looking for `target`: walk the loaded types
   * in order, propagate the first validation error, throw on a null
   * `CHANNEL` value (`.equals` is called on it), and stop at the first
   * type whose `CHANNEL` equals `target`.
   */
  function Search(loaded: seq<MessageType>, target: string): (r: Result<Option<MessageType>, FindError>)
    ensures r.Success? && r.value.Some? ==>
      r.value.value in loaded && GetChannelField(r.value.value) == Success(Some(target))
    ensures r.Failure? && r.error.InvalidMessageType? ==>
      r.error.messageType in loaded && GetChannelField(r.error.messageType) == Failure(r.error.error)
  {
    if loaded == [] then Success(None)
    else
      match GetChannelField(loaded[0])
      case Failure(e) => Failure(InvalidMessageType(loaded[0], e))
      case Success(None) => Failure(NullPointer(NullPointerException(None)))
      case Success(Some(v)) => if v == target then Success(Some(loaded[0])) else Search(loaded[1..], target)
  }

  /** When every loaded type passes, the search finds nothing and throws nothing. */
  lemma {:induction false} SearchNone(loaded: seq<MessageType>, target: string)
    requires forall j :: 0 <= j < |loaded| ==> Passes(loaded[j], target)
    ensures Search(loaded, target) == Success(None)
  {
    if loaded != [] {
      SearchNone(loaded[1..], target);
    }
  }

  /**
   * The search answers for the first loaded type that does not pass: that
   * type if its channel is the target, its validation error if it is
   * invalid, a `NullPointerException` if its channel is null.
   */
  lemma {:induction false} SearchStopsAtFirst(loaded: seq<MessageType>, target: string, k: nat)
    requires k < |loaded| && !Passes(loaded[k], target)
    requires forall j :: 0 <= j < k ==> Passes(loaded[j], target)
    ensures GetChannelField(loaded[k]) == Success(Some(target)) ==>
      Search(loaded, target) == Success(Some(loaded[k]))
    ensures GetChannelField(loaded[k]).Failure? ==>
      Search(loaded, target) == Failure(InvalidMessageType(loaded[k], GetChannelField(loaded[k]).error))
    ensures GetChannelField(loaded[k]) == Success(None) ==>
      Search(loaded, target) == Failure(NullPointer(NullPointerException(None)))
  {
    if k > 0 {
      assert Passes(loaded[0], target);
      SearchStopsAtFirst(loaded[1..], target, k - 1);
    }
  }

  /**
   * `findClass(channel)` as written: the null check is applied to a string
   * literal and the comparison is against the literal `"channel"`, so the
   * argument is never used.
   */
  method FindClass(loaded: seq<MessageType>, channel: Option<string>)
    returns (r: Result<Option<MessageType>, FindError>)
    ensures r == Search(loaded, "channel")
  {
    var i := 0;
    while i < |loaded|
      invariant 0 <= i <= |loaded|
      invariant Search(loaded[i..], "channel") == Search(loaded, "channel")
    {
      assert loaded[i..][1..] == loaded[i + 1..];
      var c := GetChannelField(loaded[i]);
      if c.Failure? {
        return Failure(InvalidMessageType(loaded[i], c.error));
      }
      if c.value.None? {
        return Failure(NullPointer(NullPointerException(None)));
      }
      if c.value.value == "channel" {
        return Success(Some(loaded[i]));
      }
      i := i + 1;
    }
    r := Success(None);
  }

  /**
   * What `findClass` evidently intends: reject a null channel with
   * "channel is null" and look for the type declaring that channel.
   */
  function FindClassIntended(loaded: seq<MessageType>, channel: Option<string>): (r: Result<Option<MessageType>, FindError>)
    ensures channel.None? ==> r == Failure(NullPointer(NullPointerException(Some("channel is null"))))
    ensures r.Success? && r.value.Some? ==>
      r.value.value in loaded && channel.Some? && GetChannelField(r.value.value) == Success(channel)
  {
    match RequireNonNull(channel, Some("channel is null"))
    case Failure(npe) => Failure(NullPointer(npe))
    case Success(c) => Search(loaded, c)
  }

  /** The intended search finds a declared channel when every earlier type is valid. */
  lemma FindClassIntendedFinds(loaded: seq<MessageType>, channel: string, k: nat)
    requires k < |loaded| && GetChannelField(loaded[k]) == Success(Some(channel))
    requires forall j :: 0 <= j < k ==> Passes(loaded[j], channel)
    ensures FindClassIntended(loaded, Some(channel)) == Success(Some(loaded[k]))
  {
    SearchStopsAtFirst(loaded, channel, k);
  }

  /**
   * As written, `findClass` misses a type declaring the requested channel
   * and accepts a null channel; the intended search does neither.
   */
  lemma FindClassLiteralCounterexample()
    ensures var t := MessageType(Some("dk.Position"), Some(FieldDescriptor(true, true, true, true, true, Some("ais.position"))), None);
      && Search([t], "channel") == Success(None)
      && FindClassIntended([t], Some("ais.position")) == Success(Some(t))
    ensures Search([], "channel") == Success(None)
    ensures FindClassIntended([], None).Failure?
  {
  }
}
