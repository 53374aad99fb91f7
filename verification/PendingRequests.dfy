/** The singly linked list of pending requests of one slot in ril.cpp. */
module PendingRequests {
  class RequestInfo {
    const token: int
    var next: RequestInfo?
    var wasAckSent: bool

    constructor (serial: int)
      ensures token == serial && next == null && !wasAckSent
    {
      token, next, wasAckSent := serial, null, false;
    }
  }

  /** `list` without its element at i. */
  function RemoveAt<T>(list: seq<T>, i: nat): (r: seq<T>)
    requires i < |list|
    ensures |r| == |list| - 1
    ensures forall k :: 0 <= k < i ==> r[k] == list[k]
    ensures forall k :: i < k < |list| ==> r[k - 1] == list[k]
  {
    list[..i] + list[i + 1..]
  }

  class PendingList {
    var head: RequestInfo?
    ghost var nodes: seq<RequestInfo>

    /** nodes[i] is followed by nodes[i + 1], the last one by null. */
    ghost predicate LinkedAt(i: nat)
      requires i < |nodes|
      reads this, nodes`next
    {
      nodes[i].next == if i + 1 < |nodes| then nodes[i + 1] else null
    }

    ghost predicate Valid()
      reads this, nodes`next
    {
      && (forall i, j :: 0 <= i < j < |nodes| ==> nodes[i] != nodes[j])
      && head == (if nodes == [] then null else nodes[0])
      && forall i :: 0 <= i < |nodes| ==> LinkedAt(i)
    }

    constructor ()
      ensures Valid() && nodes == []
    {
      head, nodes := null, [];
    }

    /** addRequestToList: the new request goes to the front. */
    method AddRequestToList(request: RequestInfo)
      requires Valid() && request !in nodes
      modifies this, request`next
      ensures Valid() && nodes == [request] + old(nodes)
    {
      request.next := head;
      head := request;
      nodes := [request] + nodes;
      forall i | 0 <= i < |nodes| ensures LinkedAt(i) {
        assert i > 0 ==> old(LinkedAt(i - 1));
      }
    }

    /**
     * checkAndDequeueRequestInfoIfAck: an ack only marks the request, a completion unlinks exactly that node.
     * The pointer to the link that leads to `cur` is the node before it, or null for the list head itself.
     */
    method CheckAndDequeueIfAck(request: RequestInfo?, isAck: bool) returns (found: bool)
      requires Valid()
      modifies this, nodes
      ensures Valid()
      ensures found <==> request != null && request in old(nodes)
      ensures !found ==> nodes == old(nodes)
      ensures found && isAck ==> nodes == old(nodes) && request.wasAckSent
      ensures found && !isAck ==>
        exists i :: 0 <= i < |old(nodes)| && old(nodes)[i] == request && nodes == RemoveAt(old(nodes), i)
      ensures found && !isAck ==> request !in nodes && request.wasAckSent == old(request.wasAckSent)
      ensures forall r :: r in old(nodes) && r != request ==> r.wasAckSent == old(r.wasAckSent)
    {
      if request == null {
        return false;
      }
      var link: RequestInfo?, cur := null, head;
      ghost var i := 0;
      while cur != null
        invariant 0 <= i <= |nodes|
        invariant cur == if i < |nodes| then nodes[i] else null
        invariant link == if i == 0 then null else nodes[i - 1]
        invariant forall k :: 0 <= k < i ==> nodes[k] != request
        decreases |nodes| - i
      {
        if cur == request {
          if isAck {
            cur.wasAckSent := true;
          } else {
            Unlink(link, cur, i);
          }
          return true;
        }
        assert LinkedAt(i);
        link, cur, i := cur, cur.next, i + 1;
      }
      return false;
    }

    /** Overwrites the link that leads to `cur` with its successor. */
    method Unlink(link: RequestInfo?, cur: RequestInfo, ghost i: nat)
      requires Valid() && i < |nodes| && nodes[i] == cur
      requires link == if i == 0 then null else nodes[i - 1]
      modifies this, nodes`next
      ensures Valid() && nodes == RemoveAt(old(nodes), i) && cur !in nodes
    {
      ghost var was := nodes;
      assert LinkedAt(i);
      if link == null {
        head := cur.next;
      } else {
        link.next := cur.next;
      }
      nodes := RemoveAt(was, i);
      forall k | 0 <= k < |nodes| ensures LinkedAt(k) {
        assert old(LinkedAt(if k < i then k else k + 1));
      }
    }
  }
}
