/**
 * The closed set of network events exchanged by two peers, the case-insensitive
 * lookup `from_string` with its `CUSTOM` fallback, `to_string`, and the `EVENTS` table.
 */
module NetworkEvents {
  import opened Wrappers
  import opened Text

  datatype NetworkEvent =
    | Init | Stop | Ready
    | CallStart | CallRinging | CallAnswer | CallEnd | CallReject
    | AudioStart | AudioStop | VideoStart | VideoStop
    | Message | Data
    | Custom

  /** The member's name as declared in the enumeration. */
  function Name(e: NetworkEvent): string
  {
    match e
    case Init => "INIT"
    case Stop => "STOP"
    case Ready => "READY"
    case CallStart => "CALL_START"
    case CallRinging => "CALL_RINGING"
    case CallAnswer => "CALL_ANSWER"
    case CallEnd => "CALL_END"
    case CallReject => "CALL_REJECT"
    case AudioStart => "AUDIO_START"
    case AudioStop => "AUDIO_STOP"
    case VideoStart => "VIDEO_START"
    case VideoStop => "VIDEO_STOP"
    case Message => "MESSAGE"
    case Data => "DATA"
    case Custom => "CUSTOM"
  }

  /** `to_string`: the member's value, the string sent on the wire. */
  function ToString(e: NetworkEvent): string
  {
    match e
    case Init => "init"
    case Stop => "stop"
    case Ready => "ready"
    case CallStart => "call_start"
    case CallRinging => "call_ringing"
    case CallAnswer => "call_answer"
    case CallEnd => "call_end"
    case CallReject => "call_reject"
    case AudioStart => "audio_start"
    case AudioStop => "audio_stop"
    case VideoStart => "video_start"
    case VideoStop => "video_stop"
    case Message => "message"
    case Data => "data"
    case Custom => "custom"
  }

  /** `NetworkEvent[n]`: the member whose declared name is exactly `n`, if any. */
  function ByName(n: string): (r: Option<NetworkEvent>)
    ensures r.Some? ==> Name(r.value) == n
    ensures r.None? ==> forall e :: Name(e) != n
  {
    match n
    case "INIT" => Some(Init)
    case "STOP" => Some(Stop)
    case "READY" => Some(Ready)
    case "CALL_START" => Some(CallStart)
    case "CALL_RINGING" => Some(CallRinging)
    case "CALL_ANSWER" => Some(CallAnswer)
    case "CALL_END" => Some(CallEnd)
    case "CALL_REJECT" => Some(CallReject)
    case "AUDIO_START" => Some(AudioStart)
    case "AUDIO_STOP" => Some(AudioStop)
    case "VIDEO_START" => Some(VideoStart)
    case "VIDEO_STOP" => Some(VideoStop)
    case "MESSAGE" => Some(Message)
    case "DATA" => Some(Data)
    case "CUSTOM" => Some(Custom)
    case _ => None
  }

  /**
   * `from_string`: upper-case the argument and look the member up by name; a string
   * that names no member yields `Custom`.
   */
  function FromString(s: string): (e: NetworkEvent)
    ensures e != Custom ==> Name(e) == Upper(s)
    ensures (forall m :: Name(m) != Upper(s)) ==> e == Custom
  {
    match ByName(Upper(s))
    case Some(m) => m
    case None => Custom
  }

  /** `EVENTS`: every member but `Custom`, keyed by its value. */
  const Events: map<string, NetworkEvent> := map[
    "init" := Init, "stop" := Stop, "ready" := Ready,
    "call_start" := CallStart, "call_ringing" := CallRinging, "call_answer" := CallAnswer,
    "call_end" := CallEnd, "call_reject" := CallReject,
    "audio_start" := AudioStart, "audio_stop" := AudioStop,
    "video_start" := VideoStart, "video_stop" := VideoStop,
    "message" := Message, "data" := Data
  ]

  /** Each member's declared name is its value upper-cased. */
  lemma NameIsUpperValue(e: NetworkEvent)
    ensures Upper(ToString(e)) == Name(e)
  {
    if e.CallStart? || e.CallRinging? || e.CallAnswer? || e.CallEnd? || e.CallReject? {
      CallNamesAreUpperValues(e);
    } else if e.AudioStart? || e.AudioStop? || e.VideoStart? || e.VideoStop? {
      MediaNamesAreUpperValues(e);
    } else {
      OtherNamesAreUpperValues(e);
    }
  }

  lemma CallNamesAreUpperValues(e: NetworkEvent)
    requires e.CallStart? || e.CallRinging? || e.CallAnswer? || e.CallEnd? || e.CallReject?
    ensures Upper(ToString(e)) == Name(e)
  {
    match e
    case CallStart => assert Upper("call_start") == "CALL_START";
    case CallRinging => assert Upper("call_ringing") == "CALL_RINGING";
    case CallAnswer => assert Upper("call_answer") == "CALL_ANSWER";
    case CallEnd => assert Upper("call_end") == "CALL_END";
    case CallReject => assert Upper("call_reject") == "CALL_REJECT";
  }

  lemma MediaNamesAreUpperValues(e: NetworkEvent)
    requires e.AudioStart? || e.AudioStop? || e.VideoStart? || e.VideoStop?
    ensures Upper(ToString(e)) == Name(e)
  {
    match e
    case AudioStart => assert Upper("audio_start") == "AUDIO_START";
    case AudioStop => assert Upper("audio_stop") == "AUDIO_STOP";
    case VideoStart => assert Upper("video_start") == "VIDEO_START";
    case VideoStop => assert Upper("video_stop") == "VIDEO_STOP";
  }

  lemma OtherNamesAreUpperValues(e: NetworkEvent)
    requires e.Init? || e.Stop? || e.Ready? || e.Message? || e.Data? || e.Custom?
    ensures Upper(ToString(e)) == Name(e)
  {
    match e
    case Init => assert Upper("init") == "INIT";
    case Stop => assert Upper("stop") == "STOP";
    case Ready => assert Upper("ready") == "READY";
    case Message => assert Upper("message") == "MESSAGE";
    case Data => assert Upper("data") == "DATA";
    case Custom => assert Upper("custom") == "CUSTOM";
  }

  /** Round trip: reading back a member's value gives the member. */
  lemma RoundTrip(e: NetworkEvent)
    ensures FromString(ToString(e)) == e
  {
    NameIsUpperValue(e);
  }

  /** Lookup ignores case: any two spellings differing only in ASCII case agree. */
  lemma CaseInsensitive(s: string, t: string)
    requires Lower(s) == Lower(t)
    ensures FromString(s) == FromString(t)
  {
    assert |s| == |Lower(s)| == |Lower(t)| == |t|;
    forall i | 0 <= i < |s|
      ensures Upper(s)[i] == Upper(t)[i]
    {
      assert Lower(s)[i] == Lower(t)[i];
    }
    assert Upper(s) == Upper(t);
  }

  /** Every key of `EVENTS` maps to the member whose value it is, and `from_string` agrees. */
  lemma EventsKeyedByValue(k: string)
    requires k in Events
    ensures ToString(Events[k]) == k
    ensures FromString(k) == Events[k]
  {
    RoundTrip(Events[k]);
  }

  /** `EVENTS` holds every member except `Custom`. */
  lemma EventsCoverAllButCustom(e: NetworkEvent)
    ensures e in Events.Values <==> e != Custom
    ensures e != Custom ==> ToString(e) in Events && Events[ToString(e)] == e
  {
    if e != Custom {
      assert Events[ToString(e)] == e;
    }
  }
}
