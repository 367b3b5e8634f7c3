/** From the sender's messages to the receiver's: codec, framer, send protocol and framing together. */
module Delivery {
  import opened Bytes
  import opened Codec
  import opened CodecLaws
  import Frames = Framing
  import opened Packets
  import opened Protocol
  import opened Safety
  import opened SessionTheorems

  /** The packet ids both sides know, with the schema of each. */
  type Table = map<nat, Schema>

  datatype Mail = Mail(id: nat, m: Message)

  /** A message of a known type that the framer accepts and the reader takes back. */
  ghost predicate Sendable(table: Table, mail: Mail) {
    && mail.id in table && mail.id <= Frames.UINT16_MAX && Typed(table[mail.id], mail.m)
    && ReadableFrom(mail.m, 0) && |Serialize(table[mail.id], mail.m)| <= MAX_PAYLOAD
  }

  ghost function PacketOf(table: Table, mail: Mail): seq<byte>
    requires Sendable(table, mail)
  {
    Frames.MakeFrame(Serialize(table[mail.id], mail.m), mail.id)
  }

  /** The accepted buffers are the packets of `mails`. */
  ghost predicate Carries(w: World, table: Table, mails: seq<Mail>) {
    && |w.core.accepted| == |mails|
    && forall i :: 0 <= i < |mails| ==> Sendable(table, mails[i]) && w.core.accepted[i] == PacketOf(table, mails[i])
  }

  /** The receiver's reading of one packet: the id decides the schema, the payload is parsed. */
  ghost function Decode(table: Table, f: seq<byte>): Option<Mail> {
    if |f| < Frames.HEADER_SIZE || Frames.ReadU16(f, 2) !in table then None
    else
      var id := Frames.ReadU16(f, 2);
      match Parse(table[id], Defaults(table[id]), Frames.Payload(f), DEPTH)
      case None => None
      case Some(m) => Some(Mail(id, m))
  }

  ghost predicate Decodes(table: Table, handed: seq<seq<byte>>, mails: seq<Mail>) {
    |handed| <= |mails| && forall i :: 0 <= i < |handed| ==> Decode(table, handed[i]) == Some(mails[i])
  }

  lemma PacketDecodes(table: Table, mail: Mail)
    requires Sendable(table, mail)
    ensures Frames.IsFrame(PacketOf(table, mail)) && Decode(table, PacketOf(table, mail)) == Some(mail)
  {
    RoundTrip(table[mail.id], mail.m, DEPTH);
  }

  lemma AcceptedDecode(w: World, table: Table, mails: seq<Mail>)
    requires Carries(w, table, mails)
    ensures Frames.AllFrames(w.core.accepted) && Decodes(table, w.core.accepted, mails)
  {
    forall i | 0 <= i < |mails|
      ensures Frames.IsFrame(w.core.accepted[i]) && Decode(table, w.core.accepted[i]) == Some(mails[i])
    {
      PacketDecodes(table, mails[i]);
    }
  }

  /**
   * For messages of any types, in every reachable state of the sending session, and however the
   * bytes on the wire are cut into non-empty receive chunks: the receiver stays open and hands
   * over, in order and from the first, packets that decode to exactly the messages sent.
   */
  lemma MessagesArrive(w: World, table: Table, mails: seq<Mail>, chunks: seq<seq<byte>>)
    requires Reachable(w) && Carries(w, table, mails)
    requires Flat(chunks) == w.core.wire && forall i :: 0 <= i < |chunks| ==> chunks[i] != []
    ensures Frames.ReceiveAll(chunks).open && Decodes(table, Frames.ReceiveAll(chunks).handed, mails)
  {
    AcceptedDecode(w, table, mails);
    WireIsPrefix(w);
    Frames.ChunkingIndependence(chunks);
  }

  /** With the connected sender idle on the send side, all of them have arrived and nothing is left over. */
  lemma AllMessagesArrive(w: World, table: Table, mails: seq<Mail>, chunks: seq<seq<byte>>)
    requires Reachable(w) && Carries(w, table, mails)
    requires w.core.s.life.connected && !w.core.s.tx.registered
    requires Flat(chunks) == w.core.wire && forall i :: 0 <= i < |chunks| ==> chunks[i] != []
    ensures var r := Frames.ReceiveAll(chunks);
      r.open && r.unread == [] && |r.handed| == |mails| && Decodes(table, r.handed, mails)
  {
    AcceptedDecode(w, table, mails);
    NothingStranded(w);
    Frames.PacketsArrive(w.core.accepted, chunks);
  }
}
