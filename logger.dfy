/** The one-line rendering of a workflow event (the `Event` class of
    aria_core/logger.py). The event's strings keep their Python 2 kind:
    byte strings and unicode strings print alike until a unicode one outside
    ASCII meets a byte-string template, or a byte string outside ASCII has
    to be decoded. */
module Logger {
  import opened PyValues
  import PyStr

  const LogTypeMarker := "aria_log"

  /** The `context` dictionary of an event: None stands for an absent key. */
  datatype Context = Context(
    deploymentId: Option<Text>,
    operation: Option<Text>,
    nodeId: Option<Text>,
    sourceId: Option<Text>,
    targetId: Option<Text>,
    group: Option<Text>,
    policy: Option<Text>,
    trigger: Option<Text>)

  /** The `message` dictionary of an event. */
  datatype Message = Message(text: Option<Text>)

  /** The values among `xs` that are not None, in order. */
  function Present<T>(xs: seq<Option<T>>): (r: seq<T>)
    ensures |r| <= |xs|
    ensures forall i :: 0 <= i < |r| ==> Some(r[i]) in xs
    ensures forall i :: 0 <= i < |xs| && xs[i].Some? ==> xs[i].value in r
  {
    if xs == [] then []
    else
      var rest := Present(xs[1..]);
      assert forall i :: 1 <= i < |xs| ==> xs[i] == xs[1..][i - 1];
      (if xs[0].Some? then [xs[0].value] else []) + rest
  }

  lemma {:induction false} PresentNone<T>(xs: seq<Option<T>>)
    ensures Present(xs) == [] <==> forall i :: 0 <= i < |xs| ==> xs[i].None?
  {
    if xs != [] {
      PresentNone(xs[1..]);
      assert forall i :: 1 <= i < |xs| ==> xs[i] == xs[1..][i - 1];
    }
  }

  /** One more value adds itself at the end when it is there, and nothing otherwise. */
  lemma {:induction false} PresentAppend<T>(xs: seq<Option<T>>, x: Option<T>)
    ensures Present(xs + [x]) == Present(xs) + (if x.Some? then [x.value] else [])
  {
    if xs != [] {
      assert (xs + [x])[1..] == xs[1..] + [x];
      PresentAppend(xs[1..], x);
    } else {
      assert [x][1..] == [];
    }
  }

  /** A workflow event as the local environment reports it; None stands for
      an absent key, the `KeyError` of reading it with `[...]`. */
  datatype Event = Event(
    atTimestamp: Option<Text>,
    timestamp: Option<Text>,
    eventType: Option<Text>,
    level: Option<Text>,
    message: Option<Message>,
    context: Option<Context>)
  {
    /** `self._event['context']` */
    function Ctx(): (r: Result<Context>)
      ensures r.Ok? <==> context.Some?
      ensures context.Some? ==> r.value == context.value
      ensures context.None? ==> r == Err(KeyError("context"))
    {
      if context.Some? then Ok(context.value) else Err(KeyError("context"))
    }

    /** `operation`: the last `.`-separated part of `context.operation`. */
    function Operation(): Result<Option<Text>>
    {
      match Ctx()
      case Err(e) => Err(e)
      case Ok(c) =>
        if c.operation.None? then Ok(None)
        else
          var parts := PyStr.Split(c.operation.value.s, '.');
          Ok(Some(c.operation.value.Like(parts[|parts| - 1])))
    }

    /** `deployment_id`: `<id>` */
    function DeploymentId(): Result<string>
    {
      match Ctx()
      case Err(e) => Err(e)
      case Ok(c) =>
        if c.deploymentId.None? then Err(KeyError("deployment_id"))
        else
          match FormatField(c.deploymentId)
          case Err(e) => Err(e)
          case Ok(id) => Ok("<" + id + ">")
    }

    /** `is_log_message`: `'aria_log' in type` */
    function IsLogMessage(): Result<bool>
    {
      if eventType.None? then Err(KeyError("type"))
      else Ok(PyStr.Contains(eventType.value.s, LogTypeMarker))
    }

    function EventTypeIndicator(): Result<string>
    {
      match IsLogMessage()
      case Err(e) => Err(e)
      case Ok(b) => Ok(if b then "LOG" else "CFY")
    }

    /** `log_level`: the level, upper-cased. */
    function LogLevel(): Result<Text>
    {
      if level.None? then Err(KeyError("level"))
      else Ok(level.value.Like(PyStr.Upper(level.value.s)))
    }

    /** The timestamp the event is shown with: `@timestamp` when present and
        not empty, else `timestamp`. */
    function RawTimestamp(): Result<Text>
    {
      if atTimestamp.Some? && atTimestamp.value.s != "" then Ok(atTimestamp.value)
      else if timestamp.Some? then Ok(timestamp.value)
      else Err(KeyError("timestamp"))
    }

    /** `timestamp`: cut at the first `.`, which drops the fraction of a second. */
    function Timestamp(): Result<Text>
    {
      match RawTimestamp()
      case Err(e) => Err(e)
      case Ok(t) => Ok(t.Like(PyStr.Split(t.s, '.')[0]))
    }

    /** `text`: the message as UTF-8 bytes, after `LEVEL: ` for log messages. */
    function Text(): Result<string>
    {
      if message.None? then Err(KeyError("message"))
      else if message.value.text.None? then Err(KeyError("text"))
      else
        match EncodeUtf8(message.value.text.value)
        case Err(e) => Err(e)
        case Ok(encoded) =>
          match IsLogMessage()
          case Err(e) => Err(e)
          case Ok(isLog) =>
            if !isLog then Ok(encoded)
            else
              match LogLevel()
              case Err(e) => Err(e)
              case Ok(l) =>
                match FormatField(Some(l))
                case Err(e) => Err(e)
                case Ok(shown) => Ok(shown + ": " + encoded)
    }

    /** `operation_info`: `[source->target|operation]` for a relationship
        operation; otherwise the present ones of node, operation, group,
        policy and trigger joined with `.` and bracketed, or an empty string. */
    function OperationInfo(): Result<Text>
    {
      match Operation()
      case Err(e) => Err(e)
      case Ok(operation) =>
        var c := context.value;
        Bracketed(
          if c.sourceId.Some? then RelationshipText(c, operation)
          else JoinText(Present([c.nodeId, operation, c.group, c.policy, c.trigger]), '.'))
    }

    /** `str(event)`: `timestamp indicator <deployment> [info ]message`. */
    function Render(): Result<string>
    {
      match DeploymentId()
      case Err(e) => Err(e)
      case Ok(deployment) =>
        match Timestamp()
        case Err(e) => Err(e)
        case Ok(ts) =>
          match EventTypeIndicator()
          case Err(e) => Err(e)
          case Ok(indicator) =>
            match Text()
            case Err(e) => Err(e)
            case Ok(text) =>
              match OperationInfo()
              case Err(e) => Err(e)
              case Ok(info) => Line(ts, indicator, deployment, info, text)
    }
  }

  /** `'{0}->{1}|{2}'.format(source, target, operation)`, its fields formatted left to right. */
  function RelationshipText(c: Context, operation: Option<Text>): Result<Text>
  {
    match FormatField(c.sourceId)
    case Err(e) => Err(e)
    case Ok(source) =>
      match FormatField(c.targetId)
      case Err(e) => Err(e)
      case Ok(target) =>
        match FormatField(operation)
        case Err(e) => Err(e)
        case Ok(op) => Ok(ByteStr(source + "->" + target + "|" + op))
  }

  /** `if info: info = '[{0}]'.format(info)`: a non-empty info is bracketed
      into a byte string; an empty one is left as it is. */
  function Bracketed(info: Result<Text>): (r: Result<Text>)
    ensures info.Err? ==> r == info
    ensures info.Ok? && info.value.s == "" ==> r == info
    ensures r.Ok? ==> r.value.s == "" || r.value.ByteStr?
    ensures info.Ok? && info.value.s != "" ==>
      var f := FormatField(Some(info.value));
      && (f.Ok? ==> r == Ok(ByteStr("[" + info.value.s + "]")))
      && (f.Err? ==> r == Err(f.error))
  {
    match info
    case Err(e) => Err(e)
    case Ok(i) =>
      if i.s == "" then Ok(i)
      else
        match FormatField(Some(i))
        case Err(e) => Err(e)
        case Ok(shown) => Ok(ByteStr("[" + shown + "]"))
  }

  /** The last step of `str(event)`: a non-empty info gets a space, then
      `'{0} {1} {2} {3}{4}'.format(timestamp, indicator, deployment_id, info,
      message)`, where only the timestamp and the info can be unicode. */
  function Line(ts: Text, indicator: string, deployment: string, info: Text, text: string): (r: Result<string>)
    ensures info.s == "" || info.ByteStr? ==>
      && (ts.ByteStr? || PyStr.IsAscii(ts.s) ==>
            r == Ok(ts.s + " " + indicator + " " + deployment + " " + (if info.s != "" then info.s + " " else "") + text))
      && (ts.UniStr? && !PyStr.IsAscii(ts.s) ==> r == Err(UnicodeEncodeError(ts.s, PyStr.FirstNonAscii(ts.s))))
  {
    var spaced := if info.s != "" then info.Like(info.s + " ") else info;
    match FormatField(Some(ts))
    case Err(e) => Err(e)
    case Ok(shownTs) =>
      match FormatField(Some(spaced))
      case Err(e) => Err(e)
      case Ok(shownInfo) => Ok(shownTs + " " + indicator + " " + deployment + " " + shownInfo + text)
  }

  /** `operation` is what follows the last `.` of `context.operation`, none
      itself and of the same kind; it is None exactly when the context has
      no operation. */
  lemma OperationIsLastPart(e: Event)
    requires e.context.Some?
    ensures e.Operation().Ok?
    ensures e.context.value.operation.None? <==> e.Operation().value.None?
    ensures e.context.value.operation.Some? ==>
      var op := e.context.value.operation.value;
      var r := e.Operation().value.value;
      && (r.ByteStr? <==> op.ByteStr?)
      && |r.s| <= |op.s| && r.s == op.s[|op.s| - |r.s|..] && '.' !in r.s
      && (|r.s| < |op.s| ==> op.s[|op.s| - |r.s| - 1] == '.')
  {
    if e.context.value.operation.Some? {
      PyStr.SplitLast(e.context.value.operation.value.s, '.');
    }
  }

  /** `<id>` needs the context and its deployment id; a unicode id outside
      ASCII cannot be formatted into the byte-string template. */
  lemma DeploymentIdShown(e: Event)
    ensures e.context.None? ==> e.DeploymentId() == Err(KeyError("context"))
    ensures e.context.Some? && e.context.value.deploymentId.None? ==>
      e.DeploymentId() == Err(KeyError("deployment_id"))
    ensures e.context.Some? && e.context.value.deploymentId.Some? ==>
      var id := e.context.value.deploymentId.value;
      && (e.DeploymentId().Ok? <==> id.ByteStr? || PyStr.IsAscii(id.s))
      && (e.DeploymentId().Ok? ==> e.DeploymentId().value == "<" + id.s + ">")
      && (e.DeploymentId().Err? ==>
            e.DeploymentId().error == UnicodeEncodeError(id.s, PyStr.FirstNonAscii(id.s)))
  {
  }

  /** `LOG_LEVEL` is the level with its ASCII letters upper-cased, of the level's kind. */
  lemma LogLevelUpper(e: Event)
    ensures e.level.None? <==> e.LogLevel() == Err(KeyError("level"))
    ensures e.level.Some? ==>
      var l := e.level.value.s;
      var r := e.LogLevel().value;
      && (r.ByteStr? <==> e.level.value.ByteStr?) && |r.s| == |l|
      && forall i :: 0 <= i < |l| ==>
           r.s[i] == (if 'a' <= l[i] <= 'z' then (l[i] as int - 32) as char else l[i])
  {
  }

  /** `timestamp` is the shown timestamp up to its first `.`, of its kind;
      `@timestamp` wins when present and not empty. */
  lemma TimestampIsFirstPart(e: Event)
    ensures e.Timestamp().Ok? <==> (e.atTimestamp.Some? && e.atTimestamp.value.s != "") || e.timestamp.Some?
    ensures e.Timestamp().Err? ==> e.Timestamp().error == KeyError("timestamp")
    ensures e.Timestamp().Ok? ==>
      var t := if e.atTimestamp.Some? && e.atTimestamp.value.s != "" then e.atTimestamp.value else e.timestamp.value;
      var r := e.Timestamp().value;
      && (r.ByteStr? <==> t.ByteStr?)
      && |r.s| <= |t.s| && r.s == t.s[..|r.s|] && '.' !in r.s
      && (|r.s| < |t.s| ==> t.s[|r.s|] == '.')
  {
    if e.RawTimestamp().Ok? {
      PyStr.SplitFirst(e.RawTimestamp().value.s, '.');
    }
  }

  /** The indicator is `LOG` exactly when `aria_log` occurs in the type, `CFY` otherwise. */
  lemma IndicatorIsLogIffMarker(e: Event)
    requires e.eventType.Some?
    ensures e.EventTypeIndicator() == Ok("LOG") <==>
      exists i: nat :: PyStr.OccursAt(e.eventType.value.s, LogTypeMarker, i)
    ensures e.EventTypeIndicator() == Ok("CFY") <==>
      !exists i: nat :: PyStr.OccursAt(e.eventType.value.s, LogTypeMarker, i)
  {
  }

  /** The message is encoded first, so a byte string outside ASCII fails
      before anything else is looked at; the text carries the upper-cased
      level exactly for log messages, and a unicode level outside ASCII
      cannot be put in front of it. ASCII messages are shown as they are. */
  lemma TextLevelPrefix(e: Event)
    requires e.message.Some? && e.message.value.text.Some?
    ensures var msg := e.message.value.text.value;
      && (Undecodable(msg) ==> e.Text() == Err(UnicodeDecodeError(msg.s, PyStr.FirstNonAscii(msg.s))))
      && (!Undecodable(msg) && e.eventType.None? ==> e.Text() == Err(KeyError("type")))
      && (!Undecodable(msg) && e.IsLogMessage() == Ok(false) ==> e.Text() == Ok(PyStr.Utf8(msg.s)))
      && (!Undecodable(msg) && e.IsLogMessage() == Ok(true) && e.level.None? ==>
            e.Text() == Err(KeyError("level")))
      && (!Undecodable(msg) && e.IsLogMessage() == Ok(true) && e.level.Some? ==>
            var l := e.level.value.Like(PyStr.Upper(e.level.value.s));
            && (l.ByteStr? || PyStr.IsAscii(l.s) ==> e.Text() == Ok(l.s + ": " + PyStr.Utf8(msg.s)))
            && (l.UniStr? && !PyStr.IsAscii(l.s) ==>
                  e.Text() == Err(UnicodeEncodeError(l.s, PyStr.FirstNonAscii(l.s)))))
      && (PyStr.IsAscii(msg.s) && e.IsLogMessage() == Ok(false) ==> e.Text() == Ok(msg.s))
  {
    var msg := e.message.value.text.value;
    if PyStr.IsAscii(msg.s) {
      PyStr.Utf8Ascii(msg.s);
    }
  }

  /** With a source, the info block is `[source->target|operation]`, None
      printing as `None`; the first of the three that is a unicode string
      outside ASCII makes it fail. */
  lemma RelationshipInfo(e: Event)
    requires e.context.Some? && e.context.value.sourceId.Some?
    ensures var c := e.context.value;
      var op := e.Operation().value;
      var s, t, o := FormatField(c.sourceId), FormatField(c.targetId), FormatField(op);
      && (s.Ok? && t.Ok? && o.Ok? ==>
            e.OperationInfo() == Ok(ByteStr("[" + s.value + "->" + t.value + "|" + o.value + "]")))
      && (s.Err? ==> e.OperationInfo() == Err(s.error))
      && (s.Ok? && t.Err? ==> e.OperationInfo() == Err(t.error))
      && (s.Ok? && t.Ok? && o.Err? ==> e.OperationInfo() == Err(o.error))
  {
    var c := e.context.value;
    var s, t, o := FormatField(c.sourceId), FormatField(c.targetId), FormatField(e.Operation().value);
    if s.Ok? && t.Ok? && o.Ok? {
      var info := s.value + "->" + t.value + "|" + o.value;
      assert |info| >= 2;
      assert "[" + info + "]" == "[" + s.value + "->" + t.value + "|" + o.value + "]";
    }
  }

  /** `sep.join(xs)` is empty exactly when there is nothing to join but empty strings, at most one. */
  lemma JoinEmpty(xs: seq<string>, sep: char)
    ensures PyStr.Join(xs, sep) == "" <==> xs == [] || xs == [""]
  {
    if |xs| >= 2 {
      assert |PyStr.Join(xs, sep)| >= 1;
    }
  }

  /** The values the info block of an event without a source is made from. */
  function NodeParts(e: Event): seq<Text>
    requires e.context.Some?
  {
    var c := e.context.value;
    Present([c.nodeId, e.Operation().value, c.group, c.policy, c.trigger])
  }

  /** Without a source, the info block is empty exactly when the join
      succeeds on no values, or one empty one; in particular when all are None. */
  lemma NodeInfoEmpty(e: Event)
    requires e.context.Some? && e.context.value.sourceId.None?
    ensures var parts := NodeParts(e);
      (e.OperationInfo().Ok? && e.OperationInfo().value.s == "") <==>
        JoinText(parts, '.').Ok? && (Texts(parts) == [] || Texts(parts) == [""])
    ensures var c := e.context.value;
      c.nodeId.None? && c.operation.None? && c.group.None? && c.policy.None? && c.trigger.None? ==>
        e.OperationInfo() == Ok(ByteStr(""))
  {
    var c := e.context.value;
    var parts := NodeParts(e);
    assert e.OperationInfo() == Bracketed(JoinText(parts, '.'));
    JoinEmpty(Texts(parts), '.');
    PresentNone([c.nodeId, e.Operation().value, c.group, c.policy, c.trigger]);
  }

  /** Without a source, when the values are all byte strings or all ASCII
      and hold no `.`, the bracketed info splits back on `.` into those
      values, in the order node, operation, group, policy, trigger. */
  lemma NodeInfoSplitsBack(e: Event)
    requires e.context.Some? && e.context.value.sourceId.None?
    requires var parts := NodeParts(e);
      && Texts(parts) != [] && Texts(parts) != [""]
      && (forall i :: 0 <= i < |parts| ==> '.' !in parts[i].s)
      && ((forall i :: 0 <= i < |parts| ==> parts[i].ByteStr?)
          || (forall i :: 0 <= i < |parts| ==> PyStr.IsAscii(parts[i].s)))
    ensures var info := e.OperationInfo();
      && info.Ok? && info.value.ByteStr?
      && |info.value.s| >= 2 && info.value.s[0] == '[' && info.value.s[|info.value.s| - 1] == ']'
      && PyStr.Split(info.value.s[1..|info.value.s| - 1], '.') == Texts(NodeParts(e))
  {
    var parts := NodeParts(e);
    var texts := Texts(parts);
    var joined := PyStr.Join(texts, '.');
    assert e.OperationInfo() == Bracketed(JoinText(parts, '.'));
    JoinEmpty(texts, '.');
    PyStr.SplitJoin(texts, '.');
    if !(forall i :: 0 <= i < |parts| ==> parts[i].ByteStr?) {
      PyStr.JoinAscii(texts, '.');
    }
    var info := "[" + joined + "]";
    assert info[1..|info| - 1] == joined;
  }

  /** Without a source, a unicode value makes the join unicode: a byte
      string outside ASCII among the values then fails to decode, and a
      joined text outside ASCII fails to go into the brackets. */
  lemma NodeInfoUnicode(e: Event)
    requires e.context.Some? && e.context.value.sourceId.None?
    requires exists i :: 0 <= i < |NodeParts(e)| && NodeParts(e)[i].UniStr?
    ensures var parts := NodeParts(e);
      var bad := FirstUndecodable(parts);
      var joined := PyStr.Join(Texts(parts), '.');
      && (bad.Some? ==>
            e.OperationInfo() == Err(UnicodeDecodeError(parts[bad.value].s, PyStr.FirstNonAscii(parts[bad.value].s))))
      && (bad.None? && !PyStr.IsAscii(joined) ==>
            e.OperationInfo() == Err(UnicodeEncodeError(joined, PyStr.FirstNonAscii(joined))))
  {
  }

  /** `str(event)` puts the timestamp, the indicator and `<deployment>`
      first, each followed by one space; a space separates the info block
      from the message only when there is an info block. */
  lemma RenderLayout(e: Event)
    requires e.Render().Ok?
    ensures e.DeploymentId().Ok? && e.Timestamp().Ok? && e.EventTypeIndicator().Ok?
    ensures e.Text().Ok? && e.OperationInfo().Ok?
    ensures var head := e.Timestamp().value.s + " " + e.EventTypeIndicator().value + " " + e.DeploymentId().value + " ";
      var info := e.OperationInfo().value.s;
      && (info == "" ==> e.Render().value == head + e.Text().value)
      && (info != "" ==> e.Render().value == head + info + " " + e.Text().value)
  {
  }

  /** The first failing property decides the error: the deployment id, then
      the timestamp, the type, the text and the operation info; a unicode
      timestamp outside ASCII fails only once all of them are there. */
  lemma RenderErrors(e: Event)
    ensures e.DeploymentId().Err? ==> e.Render() == Err(e.DeploymentId().error)
    ensures e.DeploymentId().Ok? && e.Timestamp().Err? ==> e.Render() == Err(KeyError("timestamp"))
    ensures e.context.None? ==> e.Render() == Err(KeyError("context"))
    ensures e.DeploymentId().Ok? && e.Timestamp().Ok? && e.EventTypeIndicator().Err? ==>
      e.Render() == Err(KeyError("type"))
    ensures e.DeploymentId().Ok? && e.Timestamp().Ok? && e.EventTypeIndicator().Ok? && e.Text().Err? ==>
      e.Render() == Err(e.Text().error)
    ensures
      && e.DeploymentId().Ok? && e.Timestamp().Ok? && e.EventTypeIndicator().Ok? && e.Text().Ok?
      && e.OperationInfo().Err?
      ==> e.Render() == Err(e.OperationInfo().error)
    ensures
      && e.DeploymentId().Ok? && e.Timestamp().Ok? && e.EventTypeIndicator().Ok?
      && e.Text().Ok? && e.OperationInfo().Ok?
      ==>
      var ts := e.Timestamp().value;
      && (ts.UniStr? && !PyStr.IsAscii(ts.s) ==>
            e.Render() == Err(UnicodeEncodeError(ts.s, PyStr.FirstNonAscii(ts.s))))
      && (ts.ByteStr? || PyStr.IsAscii(ts.s) ==> e.Render().Ok?)
  {
  }
}
