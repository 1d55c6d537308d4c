/** The per-host live dispatcher: a FIFO queue, the ordered map of un-acked commands and the
    replay at the front of the queue on reconnect. */
module Dispatcher {
  import OM = OrderedMap

  datatype Command = Command(id: string, body: string)

  datatype Host = Host(queue: seq<Command>, unacked: seq<(string, Command)>, connected: bool, terminated: bool)

  const NEW_HOST: Host := Host([], [], false, false)

  function HostOf(hosts: map<string, Host>, id: string): Host {
    if id in hosts then hosts[id] else NEW_HOST
  }

  function Values(d: seq<(string, Command)>): (r: seq<Command>)
    ensures |r| == |d| && forall i | 0 <= i < |d| :: r[i] == d[i].1
  {
    seq(|d|, i requires 0 <= i < |d| => d[i].1)
  }

  /** Un-acked commands, in the order they were first marked, go before whatever is queued. */
  function Registered(h: Host): Host {
    h.(connected := true, queue := Values(h.unacked) + h.queue)
  }

  function Marked(h: Host, c: Command): Host {
    h.(unacked := OM.Put(h.unacked, c.id, c))
  }

  function Acked(h: Host, id: string): Host {
    h.(unacked := OM.Remove(h.unacked, id))
  }

  class CommandDispatcher {
    var hosts: map<string, Host>

    constructor ()
      ensures hosts == map[]
    {
      hosts := map[];
    }

    method Enqueue(id: string, c: Command)
      modifies this
      ensures hosts == old(hosts)[id := HostOf(old(hosts), id).(queue := HostOf(old(hosts), id).queue + [c])]
    {
      if id !in hosts {
        hosts := hosts[id := NEW_HOST];
      }
      var h := hosts[id];
      hosts := hosts[id := h.(queue := h.queue + [c])];
    }

    /** Fails, changing nothing but the default entry, when the host already has a stream. */
    method Register(id: string) returns (ok: bool)
      modifies this
      ensures ok <==> !HostOf(old(hosts), id).connected
      ensures hosts == old(hosts)[id := if ok then Registered(HostOf(old(hosts), id)) else HostOf(old(hosts), id)]
      ensures ok ==>
                var was, queue := HostOf(old(hosts), id), hosts[id].queue;
                && |queue| == |was.unacked| + |was.queue| && queue[|was.unacked|..] == was.queue
                && forall i | 0 <= i < |was.unacked| :: queue[i] == was.unacked[i].1
    {
      if id !in hosts {
        hosts := hosts[id := NEW_HOST];
      }
      var h := hosts[id];
      if h.connected {
        return false;
      }
      var pending: seq<Command> := [];
      var queue := h.queue;
      while queue != []
        invariant pending + queue == h.queue
        decreases |queue|
      {
        pending := pending + [queue[0]];
        queue := queue[1..];
      }
      var i := 0;
      while i < |h.unacked|
        invariant 0 <= i <= |h.unacked|
        invariant queue == Values(h.unacked)[..i]
      {
        queue := queue + [h.unacked[i].1];
        i := i + 1;
      }
      var j := 0;
      while j < |pending|
        invariant 0 <= j <= |pending|
        invariant queue == Values(h.unacked) + pending[..j]
      {
        queue := queue + [pending[j]];
        j := j + 1;
      }
      assert pending[..j] == h.queue;
      hosts := hosts[id := h.(connected := true, queue := queue)];
      ok := true;
    }

    method Unregister(id: string)
      modifies this
      ensures hosts == if id in old(hosts) then old(hosts)[id := old(hosts)[id].(connected := false)] else old(hosts)
    {
      if id in hosts {
        hosts := hosts[id := hosts[id].(connected := false)];
      }
    }

    method MarkInFlight(id: string, c: Command)
      modifies this
      ensures hosts == old(hosts)[id := Marked(HostOf(old(hosts), id), c)]
    {
      if id !in hosts {
        hosts := hosts[id := NEW_HOST];
      }
      hosts := hosts[id := Marked(hosts[id], c)];
    }

    method Ack(id: string, commandId: string) returns (known: bool)
      modifies this
      ensures known <==> id in old(hosts) && OM.Get(old(hosts)[id].unacked, commandId).Some?
      ensures hosts == if id in old(hosts) then old(hosts)[id := Acked(old(hosts)[id], commandId)] else old(hosts)
    {
      if id !in hosts {
        return false;
      }
      known := OM.Get(hosts[id].unacked, commandId).Some?;
      hosts := hosts[id := Acked(hosts[id], commandId)];
    }

    method Terminate(id: string) returns (ok: bool)
      modifies this
      ensures ok <==> id in old(hosts) && old(hosts)[id].connected
      ensures hosts == if ok then old(hosts)[id := old(hosts)[id].(terminated := true)] else old(hosts)
    {
      ok := id in hosts && hosts[id].connected;
      if ok {
        hosts := hosts[id := hosts[id].(terminated := true)];
      }
    }
  }
}
