/** A session: the stores of its shells by shell number, and the subscriptions to them. */
module Session {
  import opened Bytes
  import opened Numbers
  import opened Protocol
  import opened ShellStore
  import Subscriber
  import opened Wrappers

  type Sid = nat

  class Session {
    var shells: map<Sid, ShellState>

    ghost predicate Valid()
      reads this
    {
      forall a, b :: a in shells && b in shells && a != b ==> shells[a] != shells[b]
    }

    constructor ()
      ensures Valid() && shells == map[]
    {
      shells := map[];
    }

    /** Refuses a number that is in use. `locked` is false when the write lock cannot be had
        in time: then nothing is added. */
    method AddShell(sid: Sid, locked: bool) returns (added: bool)
      requires Valid()
      modifies this
      ensures Valid()
      ensures added == (sid !in old(shells) && locked)
      ensures !added ==> shells == old(shells)
      ensures added ==> shells.Keys == old(shells).Keys + {sid} && fresh(shells[sid]) && shells[sid].View() == NEW_STORE
      ensures added ==> forall other <- old(shells) :: shells[other] == old(shells)[other]
    {
      if sid in shells || !locked {
        return false;
      }
      var state := new ShellState();
      shells := shells[sid := state];
      return true;
    }

    /** Marks the shell closed, wakes its subscribers and forgets it; when the write lock
        cannot be had in time a closed shell is left among the others. A shell that is
        unknown or already closed is left as it is. */
    method CloseShell(sid: Sid, locked: bool) returns (wakes: bool)
      requires Valid()
      modifies if sid in shells then {this, shells[sid]} else {}
      ensures Valid()
      ensures wakes == (sid in old(shells) && !old(shells[sid].closed))
      ensures wakes ==> old(shells)[sid].View() == old(shells[sid].View()).(closed := true)
      ensures shells == if wakes && locked then old(shells) - {sid} else old(shells)
      ensures sid in old(shells) && !wakes ==> shells[sid].View() == old(shells[sid].View())
    {
      if sid !in shells || shells[sid].closed {
        return false;
      }
      shells[sid].closed := true;
      if locked {
        shells := shells - {sid};
      }
      return true;
    }

    /** Output for an unknown shell is ignored, and output for one shell changes no other. */
    method AddData(sid: Sid, data: Bytes, position: nat)
      requires Valid()
      modifies if sid in shells then {shells[sid]} else {}
      ensures sid in shells ==> shells[sid].View() == AfterAdd(old(shells[sid].View()), Message(position, data))
      ensures forall other <- shells :: other != sid ==> shells[other].View() == old(shells[other].View())
    {
      if sid !in shells {
        return;
      }
      shells[sid].AddData(data, position);
    }

    /** The position of every shell that is not closed. */
    method SequenceNumbers() returns (positions: map<Sid, nat>)
      ensures forall sid :: sid in positions <==> sid in shells && !shells[sid].closed
      ensures forall sid <- positions :: positions[sid] == shells[sid].seqNum
    {
      positions := map[];
      var todo := shells.Keys;
      while todo != {}
        invariant todo <= shells.Keys
        invariant forall sid :: sid in positions <==> sid in shells && sid !in todo && !shells[sid].closed
        invariant forall sid <- positions :: positions[sid] == shells[sid].seqNum
        decreases todo
      {
        var sid :| sid in todo;
        if !shells[sid].closed {
          positions := positions[sid := shells[sid].seqNum];
        }
        todo := todo - {sid};
      }
    }
  }

  /** A viewer's subscription to one shell of a session. */
  class Subscription {
    const session: Session
    const sid: Sid
    var chunkNum: int

    constructor (session: Session, sid: Sid, chunkNum: int)
      ensures this.session == session && this.sid == sid && this.chunkNum == chunkNum
    {
      this.session := session;
      this.sid := sid;
      this.chunkNum := chunkNum;
    }

    ghost predicate Open()
      reads session
      reads if sid in session.shells then {session.shells[sid]} else {}
    {
      sid in session.shells && !session.shells[sid].closed
    }

    /** A round of the loop, which looks the shell up again each time; it is the last one
        when the shell is not `Open()`. */
    method Round() returns (open: bool, yielded: Option<Subscriber.Yield>)
      modifies this
      ensures open == Open()
      ensures !open ==> chunkNum == old(chunkNum) && yielded == None
      ensures open ==>
                Subscriber.PollResult(chunkNum, yielded) == Subscriber.Poll(session.shells[sid].View(), old(chunkNum))
    {
      if sid !in session.shells || session.shells[sid].closed {
        return false, None;
      }
      var shell := session.shells[sid];
      var byteNum := shell.byteOffset;
      var chunks := [];
      var currentChunks := shell.chunkOffset + |shell.data|;
      if chunkNum < currentChunks {
        var start := Max(0, chunkNum - shell.chunkOffset);
        byteNum := byteNum + Total(shell.data[..start]);
        chunks := shell.data[start..];
        chunkNum := currentChunks;
      }
      open := true;
      yielded := if |chunks| > 0 then Some(Subscriber.Yield(byteNum, chunks)) else None;
    }
  }
}
