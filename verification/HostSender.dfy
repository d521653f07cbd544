/** The sending half of a host terminal. It keeps a sliding window `content` of the
    terminal's output, whose first byte is at position `contentOffset` of the stream, and
    a cursor `seqNum` up to which it has sent. */
module HostSender {
  import opened Bytes
  import opened Numbers
  import opened Protocol
  import opened Utf8
  import opened Wrappers

  const CONTENT_CHUNK_SIZE := 0x1_0000
  const CONTENT_ROLLING_BYTES := 0x80_0000
  const CONTENT_PRUNE_BYTES := 0xC0_0000

  /** `failed`: the read loop has left with an exception, so nothing is read any more. */
  datatype Host = Host(content: Bytes, contentOffset: nat, seqNum: nat, seqOutdated: nat, failed: bool) {
    /** The number of bytes the terminal has produced so far. */
    function Produced(): nat {
      contentOffset + |content|
    }
  }

  const INITIAL := Host([], 0, 0, 0, false)

  datatype ReadResult = ReadResult(host: Host, sent: Option<Message>)

  datatype Span = Span(start: nat, end: nat)

  /** The piece of `content` to send when everything before `from` has been sent: at most
      one chunk, cut at characters. */
  function NextSpan(content: Bytes, from: nat): (p: Span)
    requires from <= |content|
    ensures p.start <= p.end <= |content| && p.start <= from
  {
    var start := PrevBoundary(content, from);
    var end := PrevBoundary(content, Min(start + CONTENT_CHUNK_SIZE, |content|));
    PrevIsLargest(content, from);
    PrevNotBefore(content, Min(start + CONTENT_CHUNK_SIZE, |content|), start);
    Span(start, end)
  }

  function Send(h: Host): (r: ReadResult)
    requires h.contentOffset <= h.seqNum < h.Produced()
  {
    var p := NextSpan(h.content, h.seqNum - h.contentOffset);
    ReadResult(h.(seqNum := h.contentOffset + p.end, seqOutdated := 0),
               Some(Message(h.contentOffset + p.start, h.content[p.start..p.end])))
  }

  function Prune(h: Host): Host {
    var excess := h.seqNum - CONTENT_ROLLING_BYTES - h.contentOffset;
    if |h.content| <= CONTENT_PRUNE_BYTES || excess <= 0 then h
    else if |h.content| < excess then h.(failed := true)
    else
      var pruned := PrevBoundary(h.content, excess);
      h.(content := h.content[pruned..], contentOffset := h.contentOffset + pruned)
  }

  /** One round of the read loop that obtained `data`. */
  function AfterRead(h: Host, data: Bytes): ReadResult {
    if h.failed || data == [] then ReadResult(h, None)
    else
      var grown := h.(content := h.content + data);
      if grown.Produced() <= h.seqNum then ReadResult(Prune(grown), None)
      else if h.seqNum < h.contentOffset then ReadResult(grown.(failed := true), None)
      else
        var r := Send(grown);
        ReadResult(Prune(r.host), r.sent)
  }

  /** The server reports that it has `position` bytes. */
  function AfterSync(h: Host, position: nat): Host {
    if h.seqNum <= position then h
    else
      h.(seqOutdated := h.seqOutdated + 1, seqNum := if h.seqOutdated >= 2 then position else h.seqNum)
  }

  /** A terminal; `readQueue` holds what it has sent. Unix and Windows terminals run the
      same code and differ in how many bytes a read returns. */
  class PtyTerminal {
    var content: Bytes
    var contentOffset: nat
    var seqNum: nat
    var seqOutdated: nat
    var failed: bool
    var readQueue: seq<Message>

    function View(): Host
      reads this
    {
      Host(content, contentOffset, seqNum, seqOutdated, failed)
    }

    constructor ()
      ensures View() == INITIAL && readQueue == []
    {
      content, contentOffset, seqNum, seqOutdated, failed := [], 0, 0, 0, false;
      readQueue := [];
    }

    method FindSpan() returns (span: Result<Span>)
      requires seqNum < contentOffset + |content|
      ensures span.Error? <==> seqNum < contentOffset
      ensures span.Ok? ==> span.value == NextSpan(content, seqNum - contentOffset)
    {
      var start := PrevCharBoundary(content, seqNum - contentOffset);
      if start.Error? {
        return Error;
      }
      var end := PrevCharBoundary(content, Min(start.value + CONTENT_CHUNK_SIZE, |content|));
      return Ok(Span(start.value, end.value));
    }

    /** The sending part of a round. */
    method SendPending()
      requires !failed && seqNum < contentOffset + |content|
      modifies this
      ensures contentOffset == old(contentOffset) && content == old(content)
      ensures old(seqNum) < contentOffset ==>
                View() == old(View()).(failed := true) && readQueue == old(readQueue)
      ensures contentOffset <= old(seqNum) ==>
                var r := Send(old(View()));
                View() == r.host && readQueue == old(readQueue) + [r.sent.value]
    {
      var span := FindSpan();
      if span.Error? {
        failed := true;
        return;
      }
      var message := Message(contentOffset + span.value.start, content[span.value.start..span.value.end]);
      seqNum := contentOffset + span.value.end;
      seqOutdated := 0;
      readQueue := readQueue + [message];
    }

    /** The pruning part of a round. */
    method PruneContent()
      requires !failed
      modifies this
      ensures View() == Prune(old(View())) && readQueue == old(readQueue)
    {
      if |content| > CONTENT_PRUNE_BYTES && seqNum - CONTENT_ROLLING_BYTES > contentOffset {
        var pruned := PrevCharBoundary(content, seqNum - CONTENT_ROLLING_BYTES - contentOffset);
        if pruned.Error? {
          failed := true;
          return;
        }
        contentOffset := contentOffset + pruned.value;
        content := content[pruned.value..];
      }
    }

    method ReadOutput(data: Bytes)
      modifies this
      ensures var r := AfterRead(old(View()), data);
              && View() == r.host
              && readQueue == old(readQueue) + (if r.sent.Some? then [r.sent.value] else [])
    {
      if failed || |data| == 0 {
        return;
      }
      content := content + data;
      if contentOffset + |content| > seqNum {
        SendPending();
      }
      if !failed {
        PruneContent();
      }
    }

    method Sync(position: nat)
      modifies `seqNum, `seqOutdated
      ensures View() == AfterSync(old(View()), position)
    {
      if position < seqNum {
        seqOutdated := seqOutdated + 1;
        if seqOutdated >= 3 {
          seqNum := position;
        }
      }
    }
  }
}
