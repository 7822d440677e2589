/** The application envelope and the checks every envelope passes before it is used. */
module AppMessages {
  import opened Base
  import opened Texts

  const APP_MESSAGE_SCHEMA_VERSION: u16 := 2
  const MAX_APP_TOPIC_LEN: nat := 128
  const MAX_APP_MESSAGE_BYTES: nat := 1024 * 1024

  datatype AppMessage = AppMessage(
    schemaVersion: u16, networkId: u32, topic: string,
    sourcePeerId: string, targetPeerId: Option<string>,
    timestampNs: u64, nonceHex: string, payload: seq<byte>)

  datatype AppError = UnsupportedSchema | BadTopic | BadSourcePeer | BadTargetPeer | PayloadTooLong
                    | BadFragmentedLength | BadIndexOrTotal | BadFragmentLength | BadHashText
                    | WireTooLong | Undecodable | WrongAuthor | CeilingExceeded | MetadataMismatch | HashMismatch

  predicate IsAsciiAlphanumeric(c: char) {
    'a' <= c <= 'z' || 'A' <= c <= 'Z' || '0' <= c <= '9'
  }

  /** All accepted characters are ASCII, so the byte length is the character count. */
  predicate TopicAccepted(topic: string) {
    var t := Trim(topic);
    && 0 < |t| <= MAX_APP_TOPIC_LEN
    && forall i :: 0 <= i < |t| ==> IsAsciiAlphanumeric(t[i]) || t[i] in ['-', '_', '.', '/']
  }

  /** A topic name: 1 to 128 letters, digits, dashes, underscores, dots and slashes. */
  predicate IsTopic(t: string) {
    1 <= |t| <= 128 && forall i :: 0 <= i < |t| ==> IsAsciiAlphanumeric(t[i]) || t[i] in "-_./"
  }

  ghost predicate Surrounds(topic: string, a: string, t: string, b: string) {
    topic == a + t + b && Blank(a) && Blank(b) && IsTopic(t)
  }

  /** Accepted topics are the topic names, with any white space around them. */
  lemma TopicAcceptedExactly(topic: string)
    ensures TopicAccepted(topic) <==> exists a, t, b :: Surrounds(topic, a, t, b)
  {
    if TopicAccepted(topic) {
      var a, b := TrimSplits(topic);
      assert Surrounds(topic, a, Trim(topic), b);
    }
    forall a, t, b | Surrounds(topic, a, t, b) ensures TopicAccepted(topic) {
      TopicIsTight(t);
      TrimExactly(a, t, b);
    }
  }

  lemma TopicIsTight(t: string)
    requires IsTopic(t)
    ensures Tight(t)
  {}

  /** The identity parser the code calls. */
  type PeerParser = string -> Option<PeerId>

  function CheckNames(parse: PeerParser, topic: string, source: string, target: Option<string>): Option<AppError> {
    if !TopicAccepted(topic) then Some(BadTopic)
    else if parse(source) == None then Some(BadSourcePeer)
    else if target.Some? && parse(target.value) == None then Some(BadTargetPeer)
    else None
  }

  function ValidateAppMessage(parse: PeerParser, m: AppMessage): Option<AppError> {
    if m.schemaVersion != APP_MESSAGE_SCHEMA_VERSION then Some(UnsupportedSchema)
    else match CheckNames(parse, m.topic, m.sourcePeerId, m.targetPeerId)
      case Some(e) => Some(e)
      case None => if |m.payload| > MAX_APP_MESSAGE_BYTES then Some(PayloadTooLong) else None
  }

  /** Exactly which envelopes pass, and the error of those that do not: that of the first check to fail. */
  lemma EnvelopePasses(parse: PeerParser, m: AppMessage)
    ensures var r := ValidateAppMessage(parse, m);
            var topic, source := exists a, t, b :: Surrounds(m.topic, a, t, b), parse(m.sourcePeerId).Some?;
            var target := m.targetPeerId.Some? ==> parse(m.targetPeerId.value).Some?;
            && (r == None <==> m.schemaVersion == 2 && topic && source && target && |m.payload| <= 1_048_576)
            && (r == Some(UnsupportedSchema) <==> m.schemaVersion != 2)
            && (r == Some(BadTopic) ==> !topic) && (r == Some(BadSourcePeer) ==> topic && !source)
            && (r == Some(BadTargetPeer) ==> topic && source && !target)
            && (r == Some(PayloadTooLong) ==> topic && source && target)
  {
    hide TopicAccepted, Surrounds;
    TopicAcceptedExactly(m.topic);
  }
}
