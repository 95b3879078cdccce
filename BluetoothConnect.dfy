/** The outgoing-text path of the connect screen: the send button normalises the
    typed text, drops a repeat of the last remembered value, keeps at most the
    last CAPACITY characters and hands the result to the connect service, which
    writes it only while a peer is connected. */
module BluetoothConnect {

  import opened Wrappers
  import opened JavaText

  /** Longest text handed to the service in one send. */
  const CAPACITY: nat := 120

  /** Text written (silently) just before the service is stopped. */
  const FAREWELL: string := "Waiting for message"

  /** `BluetoothConnectService.STATE_*`. */
  datatype ServiceState = StateNone | StateListen | StateConnecting | StateConnected

  /** User-facing notices the fragment raises; only "not connected" concerns sending. */
  datatype Notice = NotConnected

  function Min(a: int, b: int): int
  {
    if a <= b then a else b
  }

  /** The candidate value of a send: line feeds turned into spaces, then trimmed. */
  function Normalize(text: string): (v: string)
    ensures '\n' !in v
    ensures v != [] ==> !IsBlank(v[0]) && !IsBlank(v[|v| - 1])
  {
    Trim(ReplaceNewlines(text))
  }

  /** Normalising is a normal form: doing it again changes nothing. */
  lemma NormalizeIdempotent(text: string)
    ensures Normalize(Normalize(text)) == Normalize(text)
  {
    var v := Normalize(text);
    ReplaceNewlinesOfClean(v);
    TrimOfTrimmed(v);
  }

  /** The text a non-repeated value is sent as: its last min(CAPACITY, |value|)
      characters, in their original order. */
  function Outgoing(value: string): (p: string)
    ensures |p| == Min(CAPACITY, |value|)
    ensures value == value[..|value| - |p|] + p
    ensures |value| <= CAPACITY ==> p == value
  {
    if |value| == 0 then "" else value[|value| - Min(CAPACITY, |value|)..]
  }

  /** The reverse-append loop of the send button followed by the reverse of the
      builder: collects characters from the end of `value` backwards, at most
      CAPACITY of them, then puts them back in order. */
  method LastChars(value: string) returns (sent: string)
    ensures sent == Outgoing(value)
    ensures |sent| <= CAPACITY
  {
    var c := |value| - 1;
    var sb: string := [];
    var i := 0;
    while i < CAPACITY && c >= 0
      invariant -1 <= c < |value|
      invariant 0 <= i <= CAPACITY
      invariant i == |value| - 1 - c
      invariant sb == Reversed(value[c + 1..])
    {
      assert value[c..][1..] == value[c + 1..];
      sb := sb + [value[c]];
      c := c - 1;
      i := i + 1;
    }
    ReversedTwice(value[c + 1..]);
    sent := Reversed(sb);
  }

  /** What one press of the send button does, given the remembered value
      (`None` while it is still Java's `null`) and whether the service is
      connected: the value remembered afterwards, the payload written (if any)
      and whether the "not connected" notice is shown. */
  datatype SendEffect = SendEffect(remembered: Option<string>, payload: Option<string>, notice: bool)

  function SendStep(remembered: Option<string>, connected: bool, text: string): (e: SendEffect)
    ensures e == SendEffect(remembered, None, false) || e.remembered == Some(Normalize(text))
    ensures e.payload.Some? ==> connected && |e.payload.value| <= CAPACITY
    ensures e.notice ==> !connected && e.payload.None?
  {
    var value := Normalize(text);
    if remembered == Some(value) then SendEffect(remembered, None, false)
    else SendEffect(Some(value), if connected then Some(Outgoing(value)) else None, !connected)
  }

  /** A send does nothing at all exactly when its normalised value is the
      remembered one. */
  lemma RepeatSuppressed(remembered: Option<string>, connected: bool, text: string)
    ensures SendStep(remembered, connected, text) == SendEffect(remembered, None, false)
        <==> remembered == Some(Normalize(text))
  {
  }

  /** Any other send remembers the full normalised value, not the truncated
      payload, whether or not it could be written. */
  lemma SendRemembersFullValue(remembered: Option<string>, connected: bool, text: string)
    ensures var e := SendStep(remembered, connected, text);
            remembered != Some(Normalize(text)) ==>
              && e.remembered == Some(Normalize(text))
              && (e.payload.Some? <==> connected)
              && (e.notice <==> !connected)
  {
  }

  /** Pressing send twice with the same text: the second press is a no-op,
      even when the first was dropped because no peer was connected. */
  lemma SendTwiceIdempotent(remembered: Option<string>, first: bool, second: bool, text: string)
    ensures var e := SendStep(remembered, first, text);
            SendStep(e.remembered, second, text) == SendEffect(e.remembered, None, false)
  {
  }

  /** What is written is a suffix of the normalised value of length at most
      CAPACITY, the whole value when that is short enough, and exactly the
      empty string for an empty value. */
  lemma PayloadShape(remembered: Option<string>, connected: bool, text: string)
    ensures var e := SendStep(remembered, connected, text);
            var v := Normalize(text);
            e.payload.Some? ==>
            var p := e.payload.value;
            && connected
            && |p| == Min(CAPACITY, |v|)
            && v == v[..|v| - |p|] + p
            && (|v| <= CAPACITY ==> p == v)
            && (v == "" ==> p == "")
  {
  }

  /** After the remembered value is reset to "" (disconnect), any text with a
      non-empty normalised value is sent again, including one suppressed before. */
  lemma ResetReenablesSend(text: string)
    requires Normalize(text) != ""
    ensures SendStep(Some(""), true, text).payload == Some(Outgoing(Normalize(text)))
  {
  }

  /** The empty value is sent while nothing is remembered (the field is still
      `null`), but once the field has been reset to "" an empty send is
      suppressed. */
  lemma EmptySendNullVersusReset(text: string)
    ensures Normalize(text) == "" ==> SendStep(None, true, text).payload == Some("")
    ensures Normalize(text) == "" ==> SendStep(Some(""), true, text).payload == None
  {
  }

  /** Stand-in for the connection-management service: only the part the
      fragment observes (its state and the payloads handed to `write`). */
  class BluetoothConnectService {
    var state: ServiceState
    var written: seq<string>

    constructor ()
      ensures state == StateNone && written == []
    {
      state := StateNone;
      written := [];
    }

    function GetState(): ServiceState
      reads this
    {
      state
    }

    method Write(payload: string)
      modifies this
      ensures written == old(written) + [payload]
      ensures state == old(state)
    {
      written := written + [payload];
    }

    method Stop()
      modifies this
      ensures state == StateNone
      ensures written == old(written)
    {
      state := StateNone;
    }
  }

  class BluetoothConnectFragment {
    var service: BluetoothConnectService?
    /** The last normalised value that was not suppressed; `None` is `null`. */
    var oldValue: Option<string>
    var outBuffer: string
    var notices: seq<Notice>

    constructor ()
      ensures service == null && oldValue == None && outBuffer == "" && notices == []
    {
      service := null;
      oldValue := None;
      outBuffer := "";
      notices := [];
    }

    /** Creates the service and an empty out-buffer. */
    method SetupConnectService()
      modifies this`service, this`outBuffer
      ensures service != null && fresh(service)
      ensures service.state == StateNone && service.written == []
      ensures outBuffer == ""
    {
      service := new BluetoothConnectService();
      outBuffer := "";
    }

    /** Writes `message` only when connected and then clears the out-buffer;
        otherwise nothing is written and, unless `silent`, a notice is shown. */
    method SendMessage(message: string, silent: bool)
      requires service != null
      modifies this`outBuffer, this`notices, service
      ensures service.state == old(service.state)
      ensures var connected := old(service.state) == StateConnected;
              && service.written == old(service.written) + (if connected then [message] else [])
              && outBuffer == (if connected then "" else old(outBuffer))
              && notices == old(notices) + (if connected || silent then [] else [NotConnected])
    {
      if service.GetState() != StateConnected {
        if !silent {
          notices := notices + [NotConnected];
        }
        return;
      }
      service.Write(message);
      outBuffer := "";
    }

    /** The send button. */
    method OnTextSend(text: string)
      requires service != null
      modifies this`oldValue, this`outBuffer, this`notices, service
      ensures service.state == old(service.state)
      ensures var e := SendStep(old(oldValue), old(service.state) == StateConnected, text);
              && oldValue == e.remembered
              && service.written == old(service.written) + (if e.payload.Some? then [e.payload.value] else [])
              && outBuffer == (if e.payload.Some? then "" else old(outBuffer))
              && notices == old(notices) + (if e.notice then [NotConnected] else [])
    {
      var value := Normalize(text);
      if oldValue == Some(value) {
        return;
      }
      oldValue := Some(value);
      if |value| == 0 {
        SendMessage("", false);
        return;
      }
      var sent := LastChars(value);
      SendMessage(sent, false);
    }

    /** The disconnect button (and teardown): with a service present, silently
        writes the farewell text if connected, stops the service and resets the
        remembered value; without one, does nothing. */
    method DisconnectDevice()
      modifies this`oldValue, this`outBuffer, this`notices, service
      ensures notices == old(notices)
      ensures service == null ==> oldValue == old(oldValue) && outBuffer == old(outBuffer)
      ensures service != null ==>
                var connected := old(service.state) == StateConnected;
                && service.state == StateNone
                && service.written == old(service.written) + (if connected then [FAREWELL] else [])
                && outBuffer == (if connected then "" else old(outBuffer))
                && oldValue == Some("")
    {
      if service != null {
        SendMessage(FAREWELL, true);
        service.Stop();
        oldValue := Some("");
      }
    }

    /** The handler's DISCONNECTED notification: only the remembered value
        matters here; it is reset so the same text can be sent again. */
    method OnDisconnected()
      modifies this`oldValue
      ensures oldValue == Some("")
    {
      oldValue := Some("");
    }
  }
}
