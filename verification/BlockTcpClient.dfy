/** The blocking client's loops over partial sends and receives.

`replies` is what the socket answers, call by call: a byte count, or SOCKET_ERROR; `used` counts the calls made.
A loop that has used up all replies without coming to its end is reported as None: it is still waiting (or, fed
with zeros, spinning). */
module BlockTcpClient {
  import opened Options
  import opened Seqs

  type Byte = b: int | 0 <= b < 256

  const SOCKET_ERROR := -1

  predicate NoError(replies: seq<int>) {
    forall i :: 0 <= i < |replies| ==> replies[i] >= 0
  }

  /** The bytes the calls moved. */
  function Moved(replies: seq<int>): nat {
    if replies == [] then 0
    else
      var last := replies[|replies| - 1];
      Moved(replies[..|replies| - 1]) + if last > 0 then last else 0
  }

  lemma MovedSnoc(replies: seq<int>, k: nat)
    requires k < |replies|
    ensures Moved([]) == 0
    ensures Moved(replies[..k + 1]) == Moved(replies[..k]) + if replies[k] > 0 then replies[k] else 0
    ensures NoError(replies[..k + 1]) <==> NoError(replies[..k]) && replies[k] >= 0
  {
    TakeSnoc(replies, k);
    assert replies[..k + 1][..k] == replies[..k];
  }

  /** send answers with an error or with at most what it was offered. */
  ghost predicate SendReplies(replies: seq<int>, n: int) {
    forall k :: 0 <= k < |replies| ==> SendReply(replies, n, k)
  }

  predicate SendReply(replies: seq<int>, n: int, k: nat)
    requires k < |replies|
  {
    NoError(replies[..k]) && Moved(replies[..k]) < n ==>
      replies[k] == SOCKET_ERROR || 0 <= replies[k] <= n - Moved(replies[..k])
  }

  /** recv answers with an error or with at most the buffer's size. */
  predicate RecvReplies(replies: seq<int>, n: int) {
    forall k :: 0 <= k < |replies| ==> replies[k] == SOCKET_ERROR || 0 <= replies[k] <= n
  }

  /** The loop stopped after `used` calls because the last of them failed. */
  predicate Failed(replies: seq<int>, used: nat)
    requires used <= |replies|
  {
    used > 0 && replies[used - 1] < 0
  }

  lemma Extend(before: seq<Byte>, data: seq<Byte>, a: nat, b: nat)
    requires a <= b <= |data|
    ensures before + data[..a] + data[a..b] == before + data[..b]
  {
  }

  /** Every call was made while something was still missing. */
  predicate Needed(replies: seq<int>, used: nat, n: int)
    requires used <= |replies|
  {
    forall k :: 0 <= k < used ==> Moved(replies[..k]) < n
  }

  /** How Send ends: it waits for more replies, or returns what was moved before the failed call, or all. */
  predicate SendEnds(outcome: Option<int>, used: nat, nLen: int, replies: seq<int>)
    requires used <= |replies|
  {
    match outcome
    case None => used == |replies| && NoError(replies) && Moved(replies[..used]) < nLen
    case Some(r) =>
      if Failed(replies, used) then r == Moved(replies[..used]) < nLen && NoError(replies[..used - 1])
      else r == nLen && NoError(replies[..used]) && (nLen >= 0 ==> r == Moved(replies[..used]))
  }

  class CSLBlockTcpClient {
    var accepted: seq<Byte>   // the bytes the peer has accepted
    var taken: nat            // the bytes taken off the receive stream

    /** Send: whatever the split, the peer has accepted exactly a prefix of the data; its length is what is
    returned, all of it unless a call failed. */
    method Send(data: seq<Byte>, nLen: int, replies: seq<int>) returns (outcome: Option<int>, used: nat)
      requires nLen <= |data| && SendReplies(replies, nLen)
      modifies `accepted
      ensures used <= |replies| && Moved(replies[..used]) <= |data|
      ensures accepted == old(accepted) + data[..Moved(replies[..used])]
      ensures SendEnds(outcome, used, nLen, replies) && Needed(replies, used, nLen)
    {
      var nSum := 0;
      used := 0;
      assert data[..0] == [];
      while nSum < nLen
        invariant used <= |replies| && NoError(replies[..used]) && Needed(replies, used, nLen)
        invariant 0 <= nSum == Moved(replies[..used]) && (nLen >= 0 ==> nSum <= nLen) && (nLen < 0 ==> nSum == 0)
        invariant nSum <= |data| && accepted == old(accepted) + data[..nSum]
        decreases |replies| - used
      {
        if used == |replies| {
          assert replies[..used] == replies;
          return None, used;
        }
        var nSingle := replies[used];
        assert SendReply(replies, nLen, used);
        MovedSnoc(replies, used);
        if nSingle == SOCKET_ERROR {
          return Some(nSum), used + 1;
        }
        Extend(old(accepted), data, nSum, nSum + nSingle);
        accepted := accepted + data[nSum..nSum + nSingle];
        nSum := nSum + nSingle;
        used := used + 1;
      }
      outcome := Some(nLen);
    }

    /** Recv with a wanted length: the result counts the bytes taken off the stream; without an error it is at
    least what was wanted and less than that plus one buffer. */
    method Recv(nLen: int, nRecvLen: int, replies: seq<int>) returns (outcome: Option<int>, used: nat)
      requires RecvReplies(replies, nLen)
      modifies `taken
      ensures used <= |replies| && taken == old(taken) + Moved(replies[..used]) && Needed(replies, used, nRecvLen)
      ensures nLen < nRecvLen ==> outcome == Some(0) && used == 0
      ensures nLen >= nRecvLen ==>
              match outcome
              case None => used == |replies| && NoError(replies) && Moved(replies) < nRecvLen
              case Some(r) =>
                && r == Moved(replies[..used])
                && (if Failed(replies, used) then r < nRecvLen
                    else if nRecvLen > 0 then nRecvLen <= r < nRecvLen + nLen
                    else r == 0)
    {
      used := 0;
      if nLen < nRecvLen {
        return Some(0), used;
      }
      var nSum := 0;
      while nSum < nRecvLen
        invariant used <= |replies| && NoError(replies[..used]) && Needed(replies, used, nRecvLen)
        invariant 0 <= nSum == Moved(replies[..used]) && taken == old(taken) + nSum
        invariant if nRecvLen > 0 then nSum < nRecvLen + nLen else nSum == 0
        decreases |replies| - used
      {
        if used == |replies| {
          assert replies[..used] == replies;
          return None, used;
        }
        var nSingle := replies[used];
        MovedSnoc(replies, used);
        if nSingle == SOCKET_ERROR {
          return Some(nSum), used + 1;
        }
        taken := taken + nSingle;
        nSum := nSum + nSingle;
        used := used + 1;
      }
      outcome := Some(nSum);
    }
  }
}
