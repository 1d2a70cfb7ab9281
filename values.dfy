/** Python 2 values as the core sees them: YAML documents, deployment inputs,
    configuration sections and the exceptions the core raises or lets through. */
module PyValues {
  import PyStr

  datatype Option<+T> = None | Some(value: T)

  /** A Python 2 value. `Str` is a byte string (every char stands for one
      byte), `Unicode` a text string; dictionaries are maps, so their keys are
      unique and their iteration order is not fixed. */
  datatype Value =
    | Null
    | Bool(b: bool)
    | Int(i: int)
    | Str(s: string)
    | Unicode(u: string)
    | List(items: seq<Value>)
    | Dict(entries: map<Value, Value>)

  /** Python truth value (`if v:` / `v or default`). */
  predicate Truthy(v: Value)
  {
    match v
    case Null => false
    case Bool(b) => b
    case Int(i) => i != 0
    case Str(s) => s != ""
    case Unicode(u) => u != ""
    case List(xs) => xs != []
    case Dict(m) => m != map[]
  }

  /** `type(v).__name__` */
  function TypeName(v: Value): string
  {
    match v
    case Null => "NoneType"
    case Bool(_) => "bool"
    case Int(_) => "int"
    case Str(_) => "str"
    case Unicode(_) => "unicode"
    case List(_) => "list"
    case Dict(_) => "dict"
  }

  /** The exceptions that reach the core's callers. */
  datatype Error =
    | AriaError(message: string, possibleSolutions: seq<string>)
      // raised by the core itself
    | AttributeError(message: string)
      // an attribute looked up on an object of the wrong type
    | KeyError(key: string)
      // a missing key read with `d[key]`
    | External(message: string)
      // raised by a collaborator (parser, local env, workflow engine), propagated unchanged
    | UnicodeEncodeError(text: string, start: nat)
      // the ASCII codec met a character outside ASCII, at `start` of `text`,
      // while turning a unicode string into bytes
    | UnicodeDecodeError(text: string, start: nat)
      // the ASCII codec met a byte outside ASCII, at `start` of `text`,
      // while turning a byte string into unicode
    | IOError(message: string)
      // a file could not be opened or read

  datatype Result<+T> = Ok(value: T) | Err(error: Error)

  function NoAttribute(v: Value, attribute: string): Error
  {
    AttributeError("'" + TypeName(v) + "' object has no attribute '" + attribute + "'")
  }

  /** `v.get(key, default)`: only dictionaries have `get`. */
  function DictGet(v: Value, key: Value, default: Value): (r: Result<Value>)
    ensures r.Ok? <==> v.Dict?
    ensures v.Dict? && key in v.entries ==> r.value == v.entries[key]
    ensures v.Dict? && key !in v.entries ==> r.value == default
    ensures !v.Dict? ==> r == Err(NoAttribute(v, "get"))
  {
    match v
    case Dict(m) => Ok(if key in m then m[key] else default)
    case _ => Err(NoAttribute(v, "get"))
  }

  /** A Python 2 string: a byte string `str` (every char stands for one
      byte) or a `unicode` string. */
  datatype Text = ByteStr(s: string) | UniStr(s: string)
  {
    /** A string made from this one (a part of it, its strip, its upper
        case): Python keeps the kind. */
    function Like(t: string): (r: Text)
      ensures r.s == t && (r.ByteStr? <==> ByteStr?)
    {
      if ByteStr? then ByteStr(t) else UniStr(t)
    }
  }

  /** What `{0}` turns into in a byte-string template,
      `'...{0}...'.format(x)`: `None` prints as `None` and a byte string as
      it is, while a unicode string is turned back into bytes by the ASCII
      codec, which raises at its first character outside ASCII. */
  function FormatField(x: Option<Text>): (r: Result<string>)
    ensures r.Ok? <==> x.None? || x.value.ByteStr? || PyStr.IsAscii(x.value.s)
    ensures x.None? ==> r == Ok("None")
    ensures x.Some? && r.Ok? ==> r.value == x.value.s
    ensures r.Err? ==> r.error == UnicodeEncodeError(x.value.s, PyStr.FirstNonAscii(x.value.s))
  {
    if x.None? then Ok("None")
    else if x.value.ByteStr? || PyStr.IsAscii(x.value.s) then Ok(x.value.s)
    else Err(UnicodeEncodeError(x.value.s, PyStr.FirstNonAscii(x.value.s)))
  }

  /** `t.encode('utf-8')`: a unicode string becomes its UTF-8 bytes; a byte
      string is first decoded by the ASCII codec, which raises at its first
      byte outside ASCII. ASCII text comes back as it is. */
  function EncodeUtf8(t: Text): (r: Result<string>)
    ensures r.Ok? <==> t.UniStr? || PyStr.IsAscii(t.s)
    ensures r.Ok? ==> PyStr.IsByteString(r.value)
    ensures r.Ok? && PyStr.IsAscii(t.s) ==> r.value == t.s
    ensures r.Err? ==> r.error == UnicodeDecodeError(t.s, PyStr.FirstNonAscii(t.s))
  {
    if PyStr.IsAscii(t.s) then
      PyStr.Utf8Ascii(t.s);
      Ok(t.s)
    else if t.UniStr? then Ok(PyStr.Utf8(t.s))
    else Err(UnicodeDecodeError(t.s, PyStr.FirstNonAscii(t.s)))
  }

  /** A byte string the ASCII codec cannot decode. */
  predicate Undecodable(t: Text)
  {
    t.ByteStr? && !PyStr.IsAscii(t.s)
  }

  /** The first item the ASCII codec cannot decode, if any. */
  function FirstUndecodable(xs: seq<Text>): (r: Option<nat>)
    ensures r.None? <==> forall i :: 0 <= i < |xs| ==> !Undecodable(xs[i])
    ensures r.Some? ==>
      && r.value < |xs| && Undecodable(xs[r.value])
      && forall i :: 0 <= i < r.value ==> !Undecodable(xs[i])
  {
    if xs == [] then None
    else if Undecodable(xs[0]) then Some(0)
    else
      match FirstUndecodable(xs[1..])
      case None => None
      case Some(j) => Some(j + 1)
  }

  function Texts(xs: seq<Text>): (ss: seq<string>)
    ensures |ss| == |xs| && forall i :: 0 <= i < |xs| ==> ss[i] == xs[i].s
  {
    seq(|xs|, i requires 0 <= i < |xs| => xs[i].s)
  }

  /** `sep.join(xs)` with a byte-string separator: byte strings alone give a
      byte string; once one item is unicode the result is unicode, and every
      byte-string item is decoded by the ASCII codec on the way. */
  function JoinText(xs: seq<Text>, sep: char): (r: Result<Text>)
    requires sep as int < 128
    ensures (forall i :: 0 <= i < |xs| ==> xs[i].ByteStr?) ==> r == Ok(ByteStr(PyStr.Join(Texts(xs), sep)))
    ensures (exists i :: 0 <= i < |xs| && xs[i].UniStr?) ==>
      var bad := FirstUndecodable(xs);
      && (bad.None? ==> r == Ok(UniStr(PyStr.Join(Texts(xs), sep))))
      && (bad.Some? ==> r == Err(UnicodeDecodeError(xs[bad.value].s, PyStr.FirstNonAscii(xs[bad.value].s))))
  {
    if forall i :: 0 <= i < |xs| ==> xs[i].ByteStr? then Ok(ByteStr(PyStr.Join(Texts(xs), sep)))
    else
      match FirstUndecodable(xs)
      case None => Ok(UniStr(PyStr.Join(Texts(xs), sep)))
      case Some(i) => Err(UnicodeDecodeError(xs[i].s, PyStr.FirstNonAscii(xs[i].s)))
  }
}
