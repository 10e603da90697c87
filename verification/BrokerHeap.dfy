/** The SCOP server as it is written (scopserver.cpp): clients on the heap in a doubly linked
    list, fields updated in place. Every method is proved against module Broker. */
module BrokerHeap {
  import opened Text
  import opened Broker

  class Node {
    const id: nat
    var name: Option<string>
    var interest: Option<string>
    var hint: Option<string>
    var cookie: Option<string>
    var prev: Node?
    var next: Node?
    var rpcToId: nat
    var rpcToSeq: nat
    var rpcNextCall: nat
    var rpcNextReply: nat

    constructor (id: nat)
      ensures this.id == id && Value() == NewClient(id) && prev == null && next == null
    {
      this.id := id;
      name, interest, hint, cookie := None, None, None, None;
      prev, next := null, null;
      rpcToId, rpcToSeq, rpcNextCall, rpcNextReply := 0, 0, 1, 1;
    }

    function Value(): Client
      reads `name, `interest, `hint, `cookie, `rpcToId, `rpcToSeq, `rpcNextCall, `rpcNextReply
    {
      Client(id, name, interest, hint, cookie, rpcToId, rpcToSeq, rpcNextCall, rpcNextReply)
    }

    predicate MatchesEndpoint(endpoint: string)
      reads this
      ensures MatchesEndpoint(endpoint) == Matches(Value(), endpoint)
    {
      name == Some(endpoint) || interest == Some(endpoint)
    }
  }

  function NodeAt(ns: seq<Node>, i: int): Node? {
    if 0 <= i < |ns| then ns[i] else null
  }

  /** From the head, the list runs through `ns` in both directions. */
  ghost predicate DoublyLinked(head: Node?, ns: seq<Node>)
    reads ns`prev, ns`next
  {
    && head == NodeAt(ns, 0)
    && (forall i {:trigger ns[i].prev} :: 0 <= i < |ns| ==> ns[i].prev == NodeAt(ns, i - 1))
    && (forall i {:trigger ns[i].next} :: 0 <= i < |ns| ==> ns[i].next == NodeAt(ns, i + 1))
    && (forall i, j :: 0 <= i < j < |ns| ==> ns[i] != ns[j])
  }

  ghost predicate Mirrors(cs: seq<Client>, ns: seq<Node>)
    reads ns`name, ns`interest, ns`hint, ns`cookie,
          ns`rpcToId, ns`rpcToSeq, ns`rpcNextCall, ns`rpcNextReply
  {
    |cs| == |ns| && forall i :: 0 <= i < |ns| ==> cs[i] == ns[i].Value()
  }

  lemma SameLength(cs: seq<Client>, ns: seq<Node>)
    requires Mirrors(cs, ns)
    ensures |cs| == |ns|
  {
  }

  lemma MirrorsFirst(cs: seq<Client>, ns: seq<Node>, c: Node)
    requires Mirrors(cs, ns)
    ensures Mirrors([c.Value()] + cs, [c] + ns)
  {
  }

  lemma NodeAtLeft(ns: seq<Node>, i: nat, k: int)
    requires i < |ns|
    ensures NodeAt(ns[..i] + ns[i + 1..], k) == if k < i then NodeAt(ns, k) else NodeAt(ns, k + 1)
  {
  }

  lemma DistinctLeft(ns: seq<Node>, i: nat)
    requires i < |ns| && forall k, l :: 0 <= k < l < |ns| ==> ns[k] != ns[l]
    ensures var rest := ns[..i] + ns[i + 1..]; forall k, l :: 0 <= k < l < |rest| ==> rest[k] != rest[l]
  {
  }

  lemma Links(head: Node?, ns: seq<Node>)
    requires head == NodeAt(ns, 0) && forall k, l :: 0 <= k < l < |ns| ==> ns[k] != ns[l]
    requires forall k :: 0 <= k < |ns| ==> ns[k].prev == NodeAt(ns, k - 1) && ns[k].next == NodeAt(ns, k + 1)
    ensures DoublyLinked(head, ns)
  {
  }

  lemma DistinctNodes(head: Node?, ns: seq<Node>)
    requires DoublyLinked(head, ns)
    ensures forall i, j :: 0 <= i < j < |ns| ==> ns[i] != ns[j]
  {
  }

  lemma MirrorsLeft(cs: seq<Client>, ns: seq<Node>, i: nat)
    requires Mirrors(cs, ns) && i < |ns|
    ensures RemoveAt(cs, i) == cs[..i] + cs[i + 1..] && Mirrors(RemoveAt(cs, i), ns[..i] + ns[i + 1..])
  {
  }

  class Server {
    var clientList: Node?
    var uniqueId: nat

    ghost var nodes: seq<Node>
    ghost var clients: seq<Client>

    /** The list is well formed in both directions and stands for `clients`. */
    ghost predicate Valid()
      reads this, nodes
    {
      DoublyLinked(clientList, nodes) && Mirrors(clients, nodes)
    }

    constructor ()
      ensures Valid() && clients == [] && uniqueId == 1 && nodes == []
    {
      clientList, uniqueId := null, 1;
      nodes, clients := [], [];
    }

    /** `add_client`. */
    method AddClient() returns (c: Node)
      requires Valid()
      modifies this, nodes
      ensures Valid() && fresh(c) && nodes == [c] + old(nodes)
      ensures clients == [NewClient(old(uniqueId))] + old(clients) && uniqueId == old(uniqueId) + 1
    {
      hide DoublyLinked, Mirrors;
      c := new Node(uniqueId);
      uniqueId := uniqueId + 1;
      LinkFirst(c);
      MirrorsFirst(clients, nodes, c);
      nodes := [c] + nodes;
      clients := [c.Value()] + clients;
    }

    /** The pointer updates of `add_client`. */
    method LinkFirst(c: Node)
      requires DoublyLinked(clientList, nodes) && c !in nodes
      modifies this`clientList, nodes`prev, c`prev, c`next
      ensures DoublyLinked(clientList, [c] + nodes)
    {
      if clientList != null {
        clientList.prev := c;
      }
      c.next := clientList;
      c.prev := null;
      clientList := c;
      LinkedFirst(c);
    }

    lemma LinkedFirst(c: Node)
      requires c !in nodes && clientList == c && c.prev == null && c.next == NodeAt(nodes, 0)
      requires forall k, l :: 0 <= k < l < |nodes| ==> nodes[k] != nodes[l]
      requires forall k :: 0 <= k < |nodes| ==> nodes[k].prev == if k == 0 then c else NodeAt(nodes, k - 1)
      requires forall k :: 0 <= k < |nodes| ==> nodes[k].next == NodeAt(nodes, k + 1)
      ensures DoublyLinked(clientList, [c] + nodes)
    {
      var all := [c] + nodes;
      forall k | 0 <= k < |all| ensures all[k].prev == NodeAt(all, k - 1) && all[k].next == NodeAt(all, k + 1) {
        if k > 0 {
          assert all[k] == nodes[k - 1];
        }
      }
    }

    /** `remove_client`. */
    method RemoveClient(c: Node, ghost i: nat)
      requires Valid() && i < |nodes| && nodes[i] == c
      modifies this, nodes
      ensures Valid() && clients == RemoveAt(old(clients), i) && uniqueId == old(uniqueId)
      ensures forall k :: 0 <= k < |nodes| ==> nodes[k] == if k < i then old(nodes[k]) else old(nodes[k + 1])
      ensures |nodes| == |old(nodes)| - 1 && forall k :: 0 <= k < |nodes| ==> nodes[k] in old(nodes)
      ensures |clients| == |nodes| && clients[..i] == old(clients[..i]) && clients[i..] == old(clients[i + 1..])
    {
      hide DoublyLinked, Mirrors, RemoveAt;
      ghost var rest := nodes[..i] + nodes[i + 1..];
      SameLength(clients, nodes);
      Unlink(c, i);
      Left(clients, i);
      Left(nodes, i);
      MirrorsLeft(clients, nodes, i);
      nodes := rest;
      clients := RemoveAt(clients, i);
    }

    /** The pointer updates of `remove_client`. */
    method Unlink(c: Node, ghost i: nat)
      requires DoublyLinked(clientList, nodes) && i < |nodes| && nodes[i] == c
      modifies this`clientList, nodes`prev, nodes`next
      ensures DoublyLinked(clientList, nodes[..i] + nodes[i + 1..])
    {
      assert nodes[i].prev == NodeAt(nodes, i - 1) && nodes[i].next == NodeAt(nodes, i + 1);
      var left := c.prev;
      var right := c.next;
      if right != null {
        right.prev := left;
      }
      if left != null {
        left.next := right;
      } else {
        clientList := right;
      }
      Unlinked(left, right, c, i);
    }

    /** Two pointers were redirected past `c`, and nothing else changed. */
    lemma Unlinked(left: Node?, right: Node?, c: Node, i: nat)
      requires i < |nodes| && nodes[i] == c && left == NodeAt(nodes, i - 1) && right == NodeAt(nodes, i + 1)
      requires forall k, l :: 0 <= k < l < |nodes| ==> nodes[k] != nodes[l]
      requires forall k {:trigger nodes[k].prev} :: 0 <= k < |nodes| && k != i && k != i + 1 ==>
        nodes[k].prev == NodeAt(nodes, k - 1)
      requires forall k {:trigger nodes[k].next} :: 0 <= k < |nodes| && k != i && k != i - 1 ==>
        nodes[k].next == NodeAt(nodes, k + 1)
      requires right != null ==> right.prev == left
      requires left != null ==> left.next == right && clientList == nodes[0]
      requires left == null ==> clientList == right
      ensures DoublyLinked(clientList, nodes[..i] + nodes[i + 1..])
    {
      var rest := nodes[..i] + nodes[i + 1..];
      NodeAtLeft(nodes, i, 0);
      DistinctLeft(nodes, i);
      forall k | 0 <= k < |rest|
        ensures rest[k].prev == NodeAt(rest, k - 1) && rest[k].next == NodeAt(rest, k + 1)
      {
        UnlinkedAt(left, right, i, k);
      }
      Links(clientList, rest);
    }

    lemma UnlinkedAt(left: Node?, right: Node?, i: nat, k: nat)
      requires i < |nodes| && k < |nodes| - 1 && left == NodeAt(nodes, i - 1) && right == NodeAt(nodes, i + 1)
      requires forall k {:trigger nodes[k].prev} :: 0 <= k < |nodes| && k != i && k != i + 1 ==>
        nodes[k].prev == NodeAt(nodes, k - 1)
      requires forall k {:trigger nodes[k].next} :: 0 <= k < |nodes| && k != i && k != i - 1 ==>
        nodes[k].next == NodeAt(nodes, k + 1)
      requires right != null ==> right.prev == left
      requires left != null ==> left.next == right
      ensures var rest := nodes[..i] + nodes[i + 1..];
        rest[k].prev == NodeAt(rest, k - 1) && rest[k].next == NodeAt(rest, k + 1)
    {
      NodeAtLeft(nodes, i, k - 1);
      NodeAtLeft(nodes, i, k + 1);
      var m := if k < i then k else k + 1;
      assert nodes[m] == NodeAt(nodes, m);
    }

    /** The abstract value of the client at `i` after its fields were set. */
    ghost method Refresh(c: Node, i: nat)
      requires DoublyLinked(clientList, nodes) && |clients| == |nodes| && i < |nodes| && nodes[i] == c
      requires forall j :: 0 <= j < |nodes| && j != i ==> clients[j] == nodes[j].Value()
      modifies this`clients
      ensures Valid() && clients == old(clients)[i := c.Value()]
    {
      clients := clients[i := c.Value()];
    }

    /** `count_clients`. */
    method CountClients() returns (count: nat)
      requires Valid()
      ensures count == |clients|
    {
      count := 0;
      var c := clientList;
      while c != null
        invariant count <= |nodes| && c == NodeAt(nodes, count)
        decreases |nodes| - count
      {
        count := count + 1;
        c := c.next;
      }
    }

    /** The scan of `query_client`. */
    method CountMatches(endpoint: string) returns (found: nat)
      requires Valid()
      ensures found == Count(clients, endpoint)
    {
      found := 0;
      var c := clientList;
      ghost var k := 0;
      while c != null
        invariant 0 <= k <= |nodes| && c == NodeAt(nodes, k)
        invariant found + Count(clients[k..], endpoint) == Count(clients, endpoint)
        decreases |nodes| - k
      {
        assert clients[k..][1..] == clients[k + 1..];
        if c.MatchesEndpoint(endpoint) {
          found := found + 1;
        }
        c := c.next;
        k := k + 1;
      }
    }

    /** The scan of `rpc_call`: the one match, or null and whether there were several. */
    method FindTarget(endpoint: string) returns (target: Node?, ghost t: nat)
      requires Valid()
      ensures target == null <==> Count(clients, endpoint) != 1
      ensures target != null ==> t < |nodes| && target == nodes[t] && t == FirstMatch(clients, endpoint)
    {
      target, t := null, 0;
      var c := clientList;
      ghost var k := 0;
      while c != null
        invariant 0 <= k <= |nodes| && c == NodeAt(nodes, k)
        invariant Count(clients, endpoint) == (if target == null then 0 else 1) + Count(clients[k..], endpoint)
        invariant target == null ==> forall j :: 0 <= j < k ==> !Matches(clients[j], endpoint)
        invariant target != null ==> t < k && target == nodes[t] && Matches(clients[t], endpoint)
        invariant target != null ==> forall j :: 0 <= j < t ==> !Matches(clients[j], endpoint)
        decreases |nodes| - k
      {
        assert clients[k..][1..] == clients[k + 1..];
        if c.MatchesEndpoint(endpoint) {
          if target != null {
            return null, 0;
          }
          target, t := c, k;
        }
        c := c.next;
        k := k + 1;
      }
      assert clients[k..] == [];
    }

    /** The scan of `rpc_reply`. */
    method FindWaiter(server: nat, reply: nat) returns (w: Node?, ghost k: nat)
      requires Valid()
      ensures k == FirstWaiter(clients, server, reply)
      ensures w == NodeAt(nodes, k)
    {
      w, k := clientList, 0;
      while w != null
        invariant 0 <= k <= |nodes| && w == NodeAt(nodes, k)
        invariant forall j :: 0 <= j < k ==> !WaitsFor(clients[j], server, reply)
        decreases |nodes| - k
      {
        if w.rpcToId == server && w.rpcToSeq == reply {
          break;
        }
        w := w.next;
        k := k + 1;
      }
    }

    /** `rpc_call`. */
    method CallRpc(buf: string, caller: Node, ghost i: nat, stale: string) returns (outs: seq<Output>)
      requires Valid() && i < |nodes| && nodes[i] == caller && "call" <= buf
      modifies this, nodes
      ensures Valid() && nodes == old(nodes) && uniqueId == old(uniqueId)
      ensures (clients, outs) == RpcCall(old(clients), i, buf, stale)
    {
      hide ScanEndpoint, Body, Link, CallText;
      if caller.rpcToId != 0 {
        return [Posted(caller.id, RPC_ERROR)];
      }
      var r := ScanEndpoint("call", buf);
      if r == None {
        return [Posted(caller.id, RPC_ERROR)];
      }
      var endpoint, pos := r.value.0, r.value.1;
      var target;
      ghost var t;
      target, t := FindTarget(endpoint);
      if target == null {
        return [Posted(caller.id, RPC_ERROR)];
      }
      outs := [Posted(target.id, CallText(Body(buf, pos, stale)))];
      LinkNodes(caller, i, target, t);
    }

    /** The three assignments at the end of `rpc_call`. */
    method LinkNodes(caller: Node, ghost i: nat, target: Node, ghost t: nat)
      requires Valid() && i < |nodes| && nodes[i] == caller && t < |nodes| && nodes[t] == target
      modifies this`clients, caller`rpcToId, caller`rpcToSeq, target`rpcNextCall
      ensures Valid() && clients == Link(old(clients), i, t)
    {
      hide DoublyLinked;
      DistinctNodes(clientList, nodes);
      caller.rpcToId := target.id;
      caller.rpcToSeq := target.rpcNextCall;
      target.rpcNextCall := target.rpcNextCall + 1;
      clients := Link(clients, i, t);
      forall j | 0 <= j < |nodes| ensures clients[j] == nodes[j].Value() {
        assert old(clients[j]) == old(nodes[j].Value());
      }
    }

    /** `rpc_reply`. */
    method ReplyRpc(results: string, server: Node, ghost i: nat) returns (outs: seq<Output>)
      requires Valid() && i < |nodes| && nodes[i] == server
      modifies this, nodes
      ensures Valid() && nodes == old(nodes) && uniqueId == old(uniqueId)
      ensures (clients, outs) == RpcReply(old(clients), i, results)
    {
      var id, seqno := server.id, server.rpcNextReply;
      CountReply(server, i);
      var c;
      ghost var k;
      c, k := FindWaiter(id, seqno);
      if c == null {
        return [];
      }
      outs := [Posted(c.id, results)];
      Release(c, k);
    }

    method CountReply(server: Node, ghost i: nat)
      requires Valid() && i < |nodes| && nodes[i] == server
      modifies this`clients, server`rpcNextReply
      ensures Valid() && clients == old(clients)[i := old(clients[i]).(nextReply := old(clients[i]).nextReply + 1)]
    {
      server.rpcNextReply := server.rpcNextReply + 1;
      Refresh(server, i);
    }

    method Release(c: Node, ghost i: nat)
      requires Valid() && i < |nodes| && nodes[i] == c
      modifies this`clients, c`rpcToId
      ensures Valid() && clients == old(clients)[i := old(clients[i]).(toId := 0)]
    {
      c.rpcToId := 0;
      Refresh(c, i);
    }

    /** `do_send`, with the next client noted before a removal. */
    method SendAll(endpoint: string, msg: string, dead: set<nat>) returns (outs: seq<Output>)
      requires Valid()
      modifies this, nodes
      ensures Valid() && uniqueId == old(uniqueId)
      ensures (clients, outs) == Deliver(old(clients), endpoint, msg, dead)
    {
      hide Valid, Deliver, Delivered, Matches;
      outs := [];
      var c := First();
      ghost var k, todo := 0, clients;
      DeliverEnds(clients, endpoint, msg, dead, [], []);
      while c != null
        invariant Valid() && uniqueId == old(uniqueId)
        invariant 0 <= k <= |nodes| == |clients| && c == NodeAt(nodes, k)
        invariant forall i :: 0 <= i < |nodes| ==> nodes[i] in old(nodes)
        invariant clients[k..] == todo
        invariant Delivered(old(clients), endpoint, msg, dead, clients[..k], outs, todo)
        decreases |nodes| - k
      {
        var nextC := NextOf(c, k);
        DeliverProgress(old(clients), endpoint, msg, dead, clients[..k], outs, todo);
        assert todo[0] == clients[k];
        assert clients[..k] + [clients[k]] == clients[..k + 1];
        if c.rpcToId == 0 && c.MatchesEndpoint(endpoint) {
          if c.id in dead {
            RemoveClient(c, k);
          } else {
            outs := outs + [Posted(c.id, msg)];
            k := k + 1;
          }
        } else {
          k := k + 1;
        }
        todo := todo[1..];
        c := nextC;
      }
      DeliverEnds(old(clients), endpoint, msg, dead, clients, outs);
      assert clients[..k] == clients;
    }

    method First() returns (c: Node?)
      requires Valid()
      ensures c == NodeAt(nodes, 0) && |nodes| == |clients|
    {
      c := clientList;
    }

    method NextOf(c: Node, ghost k: nat) returns (n: Node?)
      requires Valid() && k < |nodes| && nodes[k] == c
      ensures n == NodeAt(nodes, k + 1)
      ensures |clients| == |nodes| && clients[k] == c.Value()
    {
      n := c.next;
    }

    /** `remove_all`. */
    method ClearAll(endpoint: string)
      requires Valid()
      modifies this, nodes
      ensures Valid() && uniqueId == old(uniqueId) && clients == Without(old(clients), endpoint)
    {
      hide Valid, Cleared, Without, Matches;
      var c := First();
      ghost var k, todo := 0, clients;
      ClearEnds(clients, endpoint, []);
      while c != null
        invariant Valid() && uniqueId == old(uniqueId)
        invariant 0 <= k <= |nodes| == |clients| && c == NodeAt(nodes, k)
        invariant forall i :: 0 <= i < |nodes| ==> nodes[i] in old(nodes)
        invariant clients[k..] == todo
        invariant Cleared(old(clients), endpoint, clients[..k], todo)
        decreases |nodes| - k
      {
        var nextC := NextOf(c, k);
        ClearProgress(old(clients), endpoint, clients[..k], todo);
        assert todo[0] == clients[k];
        assert clients[..k] + [clients[k]] == clients[..k + 1];
        if c.MatchesEndpoint(endpoint) {
          RemoveClient(c, k);
        } else {
          k := k + 1;
        }
        todo := todo[1..];
        c := nextC;
      }
      ClearEnds(old(clients), endpoint, clients);
      assert clients[..k] == clients;
    }

    /** The setters behind register, listen, set-cookie and set-source-hint. */
    method SetField(c: Node, ghost i: nat, buf: string, stale: string)
      requires Valid() && i < |nodes| && nodes[i] == c
      modifies this`clients, c`name, c`interest, c`cookie, c`hint
      ensures Valid() && clients == old(clients)[i := Rename(old(clients[i]), buf, stale)]
    {
      hide ScanEndpoint, Behind, CommandOf, DoublyLinked;
      DistinctNodes(clientList, nodes);
      var r := Rename(c.Value(), buf, stale);
      match CommandOf(buf) {
        case Register => c.name := r.name;
        case Listen => c.interest := r.interest;
        case SetCookie => c.cookie := r.cookie;
        case SetSourceHint => c.hint := r.hint;
        case _ =>
      }
      Refresh(c, i);
    }

    /** The texts that list and get-cookie send back. */
    method DumpState(id: nat) returns (s: string)
      requires Valid()
      ensures s == Dump(clients, id)
    {
      s := [];
      var c := clientList;
      ghost var k := 0;
      while c != null
        invariant 0 <= k <= |nodes| && c == NodeAt(nodes, k)
        invariant s + Dump(clients[k..], id) == Dump(clients, id)
        decreases |nodes| - k
      {
        hide DumpOne;
        ghost var todo := clients[k..];
        assert todo[0] == c.Value() && todo[1..] == clients[k + 1..];
        AppendAssociates(s, DumpOne(c.Value()), Dump(todo[1..], id));
        if c.id != id {
          s := s + DumpOne(c.Value());
        }
        c := c.next;
        k := k + 1;
      }
    }

    method GetCookie(id: nat, buf: string) returns (outs: seq<Output>)
      requires Valid() && "get-cookie" <= buf
      ensures outs == CookieOf(clients, id, buf)
    {
      hide ScanEndpoint;
      var r := ScanEndpoint("get-cookie", buf);
      if r == None {
        return [];
      }
      var name := r.value.0;
      var c := clientList;
      ghost var k := 0;
      while c != null
        invariant 0 <= k <= |nodes| && c == NodeAt(nodes, k)
        invariant forall j :: 0 <= j < k ==> clients[j].name != Some(name)
        decreases |nodes| - k
      {
        if c.name == Some(name) {
          break;
        }
        c := c.next;
        k := k + 1;
      }
      return if c == null || c.cookie == None then [] else [Posted(id, c.cookie.value)];
    }

    /** `do_send`, with the acknowledgement. */
    method DoSendTo(endpoint: string, msg: string, dead: set<nat>, ack: Option<nat>) returns (outs: seq<Output>)
      requires Valid()
      modifies this, nodes
      ensures Valid() && uniqueId == old(uniqueId)
      ensures (clients, outs) == DoSend(old(clients), endpoint, msg, dead, ack)
    {
      hide Deliver;
      outs := SendAll(endpoint, msg, dead);
      if ack.Some? {
        outs := outs + [Wrote(ack.value, |outs|)];
      }
    }

    /** `send_message`. */
    method Send(word: string, buf: string, dead: set<nat>, stale: string, ack: Option<nat>)
      returns (outs: seq<Output>)
      requires Valid() && word <= buf
      modifies this, nodes
      ensures Valid() && uniqueId == old(uniqueId)
      ensures (clients, outs) == SendMessage(old(clients), word, buf, dead, stale, ack)
    {
      hide ScanEndpoint, DoSend, Body;
      var r := ScanEndpoint(word, buf);
      if r == None {
        return if ack.Some? then [Wrote(ack.value, VERIFY_SYNTAX_ERROR)] else [];
      }
      outs := DoSendTo(r.value.0, Body(buf, r.value.1, stale), dead, ack);
    }

    /** `process_command`, once the message was read. */
    method ProcessCommand(c: Node, ghost i: nat, buf: string, dead: set<nat>, stale: string)
      returns (outs: seq<Output>)
      requires Valid() && i < |nodes| && nodes[i] == c
      modifies this, nodes
      ensures Valid() && uniqueId == old(uniqueId)
      ensures (clients, outs) == Process(old(clients), i, buf, dead, stale)
    {
      hide CommandOf, ScanEndpoint, Behind, RpcCall, RpcReply, DoSend, Without, CookieOf, Dump, Rename, Count;
      outs := [];
      match CommandOf(buf) {
        case Call => outs := CallRpc(buf, c, i, stale);
        case Reply => outs := ReplyRpc(Behind(buf, |"reply "|, stale), c, i);
        case Message => outs := Send("message", buf, dead, stale, None);
        case Verify => outs := Send("verify", buf, dead, stale, Some(c.id));
        case Emit =>
          if c.hint == None {
            return [Wrote(c.id, -1)];
          }
          outs := DoSendTo(c.hint.value, Behind(buf, |"emit "|, stale), dead, Some(c.id));
        case Clear =>
          var r := ScanEndpoint("clear", buf);
          if r.Some? {
            ClearAll(r.value.0);
          }
        case Query =>
          var r := ScanEndpoint("query", buf);
          if r.Some? {
            var found := CountMatches(r.value.0);
            outs := [Wrote(c.id, found)];
          }
        case ListClients =>
          var text := DumpState(c.id);
          outs := [Posted(c.id, text)];
        case GetCookie => outs := GetCookie(c.id, buf);
        case _ => SetField(c, i, buf, stale);
      }
    }

    /** One turn of the main loop refines one step of the state machine. */
    method Turn(e: Event) returns (outs: seq<Output>)
      requires Valid()
      modifies this, nodes
      ensures Valid()
      ensures (State(clients, uniqueId), outs) == Step(State(old(clients), old(uniqueId)), e)
    {
      hide Process, CString;
      outs := [];
      if e.Connect? {
        var _ := AddClient();
      } else {
        var c;
        ghost var i;
        c, i := FindId(e.id);
        if c != null {
          if e.Closed? {
            RemoveClient(c, i);
          } else {
            outs := ProcessCommand(c, i, CString(e.buf), e.dead, e.stale);
          }
        }
      }
    }

    /** The client whose socket is ready. */
    method FindId(id: nat) returns (c: Node?, ghost i: nat)
      requires Valid()
      ensures i == IndexOf(clients, id) && c == NodeAt(nodes, i)
    {
      c, i := clientList, 0;
      while c != null && c.id != id
        invariant 0 <= i <= |nodes| && c == NodeAt(nodes, i)
        invariant forall j :: 0 <= j < i ==> clients[j].id != id
        decreases |nodes| - i
      {
        c := c.next;
        i := i + 1;
      }
    }
  }
}
