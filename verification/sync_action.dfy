/**
 * How a page learns that data changed elsewhere (src/hooks/useSync.ts): every
 * sync message is reduced to an action name by `normalizeAction`, and the
 * page's callback runs when that name is the one it subscribed to. Messages
 * are JavaScript values; parsing JSON text is a parameter. The listener and
 * socket plumbing (reconnecting, disposal) is left out.
 */
module SyncAction {
  import opened Wrappers
  import LanGateway

  /**
   * The JavaScript values a message can be, as far as `normalizeAction` can
   * tell them apart. An object records its `action` property: `None` when the
   * key is absent, `Some(Undefined)` when present but undefined. Arrays are
   * objects without that key.
   */
  datatype JsValue =
    | Undefined
    | Null
    | Bool(b: bool)
    | Number(n: int)
    | Str(s: string)
    | Object(action: Option<JsValue>)
    | Function

  /** What `JSON.parse` does with a text: a value, or an exception. */
  datatype Parsed = Value(v: JsValue) | SyntaxError

  /** The values `if (x)` accepts. */
  predicate Truthy(v: JsValue) {
    match v
    case Undefined => false
    case Null => false
    case Bool(b) => b
    case Number(n) => n != 0
    case Str(s) => s != ""
    case Object(_) => true
    case Function => true
  }

  /** `parsed?.action`: the action property of a parsed value, undefined on anything but an object. */
  function ActionOf(v: JsValue): JsValue {
    match v
    case Object(Some(a)) => a
    case _ => Undefined
  }

  /**
   * `normalizeAction(payload)`. A text is parsed: a truthy action of the
   * parsed value wins, and otherwise, or when parsing fails, the text itself
   * is the action. An object with an `action` key gives that action if it is
   * a string and null otherwise. Anything else gives null. The result is
   * `Null` for null.
   */
  function NormalizeAction(payload: JsValue, parse: string -> Parsed): JsValue {
    match payload
    case Str(text) =>
      (match parse(text)
       case Value(v) => if Truthy(ActionOf(v)) then ActionOf(v) else payload
       case SyntaxError => payload)
    case Object(Some(a)) => if a.Str? then a else Null
    case _ => Null
  }

  /** The subscriber to `action` is called back for this payload. */
  predicate Fires(payload: JsValue, action: string, parse: string -> Parsed) {
    NormalizeAction(payload, parse) == Str(action)
  }

  /**
   * The cases of `normalizeAction`: text whose parsed action is truthy gives
   * that action; text that does not parse, or parses without a truthy action,
   * gives itself; an object with an `action` key gives it when it is a string,
   * else null; any other payload gives null.
   */
  lemma NormalizeActionCases(payload: JsValue, parse: string -> Parsed)
    ensures payload.Str? && parse(payload.s).Value? && Truthy(ActionOf(parse(payload.s).v)) ==>
      NormalizeAction(payload, parse) == ActionOf(parse(payload.s).v)
    ensures payload.Str? && (parse(payload.s).SyntaxError? || !Truthy(ActionOf(parse(payload.s).v))) ==>
      NormalizeAction(payload, parse) == payload
    ensures payload.Object? && payload.action.Some? ==>
      NormalizeAction(payload, parse) == if payload.action.value.Str? then payload.action.value else Null
    ensures !payload.Str? && !(payload.Object? && payload.action.Some?) ==> NormalizeAction(payload, parse) == Null
  {
  }

  /**
   * The callback runs for `action` exactly when the payload is text whose
   * parsed action is that name, or text without a truthy parsed action that
   * is the name itself, or an object whose `action` is that name.
   */
  lemma FiresExactly(payload: JsValue, action: string, parse: string -> Parsed)
    ensures Fires(payload, action, parse) <==>
      || (payload.Str? && parse(payload.s).Value? && ActionOf(parse(payload.s).v) == Str(action) && action != "")
      || (payload.Str? && (parse(payload.s).SyntaxError? || !Truthy(ActionOf(parse(payload.s).v))) && payload.s == action)
      || (payload == Object(Some(Str(action))))
  {
  }

  /** A callback fires for one action name at most. */
  lemma FiresForOneAction(payload: JsValue, action: string, other: string, parse: string -> Parsed)
    requires Fires(payload, action, parse) && Fires(payload, other, parse)
    ensures action == other
  {
  }

  /**
   * What the backend broadcasts for an action (the JSON text of
   * `{"action": action}`) makes exactly the subscribers of that action run,
   * provided parsing reads that text back as such an object.
   */
  lemma BroadcastFiresItsAction(action: string, subscribed: string, parse: string -> Parsed)
    requires action != ""
    requires parse(LanGateway.SyncPayload(action)) == Value(Object(Some(Str(action))))
    ensures Fires(Str(LanGateway.SyncPayload(action)), subscribed, parse) <==> subscribed == action
  {
  }
}
