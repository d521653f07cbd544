/** What travels from the host to the server: output bytes at their stream position. */
module Protocol {
  import opened Bytes

  datatype Message = Message(seqNum: nat, data: Bytes) {
    function End(): nat {
      seqNum + |data|
    }

    /** The message carries the bytes that `stream` has at its position. */
    predicate TrueOf(stream: Bytes) {
      End() <= |stream| && data == stream[seqNum..End()]
    }
  }

  lemma StaysTrue(m: Message, stream: Bytes, more: Bytes)
    requires m.TrueOf(stream)
    ensures m.TrueOf(stream + more)
  {
    assert (stream + more)[m.seqNum..m.End()] == stream[m.seqNum..m.End()];
  }
}
