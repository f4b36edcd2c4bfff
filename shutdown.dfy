/**
 * The shutdown-callback list (searchd::AddShutdownCb, DeleteShutdownCb,
 * FireShutdownCbs). A callback is identified by a number and "calling" it
 * appends that number to the `fired` log. A cookie is the node's address;
 * here every node gets a fresh number, never reused.
 */
module Shutdown {
  import opened Options

  /** Handler_t: one list node holding its callback. */
  datatype Handler = Handler(cookie: nat, callback: nat)

  function Callbacks(nodes: seq<Handler>): (r: seq<nat>)
    ensures |r| == |nodes|
    ensures forall i :: 0 <= i < |nodes| ==> r[i] == nodes[i].callback
  {
    if nodes == [] then [] else [nodes[0].callback] + Callbacks(nodes[1..])
  }

  predicate Live(nodes: seq<Handler>, cookie: nat)
  {
    exists i :: 0 <= i < |nodes| && nodes[i].cookie == cookie
  }

  /** Cookies ascend along the list (so they are distinct) and stay below
      the next one to hand out. */
  predicate Ascending(nodes: seq<Handler>, next: nat)
  {
    (forall i, j :: 0 <= i < j < |nodes| ==> nodes[i].cookie < nodes[j].cookie)
    && (forall i :: 0 <= i < |nodes| ==> nodes[i].cookie < next)
  }

  /** Removing one node keeps the cookie order. */
  lemma AscendingRemove(nodes: seq<Handler>, next: nat, k: nat)
    requires Ascending(nodes, next) && k < |nodes|
    ensures Ascending(nodes[..k] + nodes[k + 1..], next)
  {
    var r := nodes[..k] + nodes[k + 1..];
    forall i | 0 <= i < |r| ensures r[i] == nodes[if i < k then i else i + 1] {
    }
  }

  /** Popping the head keeps the cookie order. */
  lemma AscendingTail(nodes: seq<Handler>, next: nat)
    requires Ascending(nodes, next) && nodes != []
    ensures Ascending(nodes[1..], next)
  {
  }

  class ShutdownList {
    /** dShutdownList, head first. */
    var nodes: seq<Handler>
    /** The callbacks run so far, in the order they ran. */
    var fired: seq<nat>
    /** The next fresh cookie (stands for the allocator). */
    var nextCookie: nat

    ghost predicate Valid()
      reads this
    {
      Ascending(nodes, nextCookie)
    }

    constructor ()
      ensures Valid() && nodes == [] && fired == []
    {
      nodes := [];
      fired := [];
      nextCookie := 0;
    }

    /** AddShutdownCb: append a new node at the tail and return its cookie. */
    method Add(callback: nat) returns (cookie: nat)
      requires Valid()
      modifies this
      ensures Valid() && fired == old(fired)
      ensures !Live(old(nodes), cookie)
      ensures nodes == old(nodes) + [Handler(cookie, callback)]
    {
      cookie := nextCookie;
      nodes := nodes + [Handler(cookie, callback)];
      nextCookie := nextCookie + 1;
    }

    /** DeleteShutdownCb: a null cookie, or an empty list, is ignored;
        otherwise the cookie must be a node still on the list, and only
        that node is removed. */
    method Delete(cookie: Option<nat>)
      requires Valid()
      requires cookie.Some? && nodes != [] ==> Live(nodes, cookie.value)
      modifies this
      ensures Valid() && fired == old(fired)
      ensures cookie.None? || old(nodes) == [] ==> nodes == old(nodes)
      ensures cookie.Some? && old(nodes) != [] ==>
                exists k :: 0 <= k < |old(nodes)| && old(nodes)[k].cookie == cookie.value
                         && nodes == old(nodes)[..k] + old(nodes)[k + 1..]
    {
      if cookie.None? {
        return;
      }
      if |nodes| == 0 {
        return;
      }
      var k :| 0 <= k < |nodes| && nodes[k].cookie == cookie.value;
      AscendingRemove(nodes, nextCookie, k);
      nodes := nodes[..k] + nodes[k + 1..];
    }

    /** FireShutdownCbs: pop the head and run it until the list is empty. */
    method Fire()
      requires Valid()
      modifies this
      ensures Valid() && nodes == []
      ensures fired == old(fired) + Callbacks(old(nodes))
    {
      ghost var done := 0;
      while |nodes| != 0
        invariant Ascending(nodes, nextCookie)
        invariant 0 <= done <= |old(nodes)| && nodes == old(nodes)[done..]
        invariant fired == old(fired) + Callbacks(old(nodes)[..done])
        decreases |nodes|
      {
        var head := nodes[0];
        assert old(nodes)[..done + 1] == old(nodes)[..done] + [head];
        CallbacksAppend(old(nodes)[..done], head);
        AscendingTail(nodes, nextCookie);
        nodes := nodes[1..];
        fired := fired + [head.callback];
        done := done + 1;
      }
      assert old(nodes)[..done] == old(nodes);
    }
  }

  lemma CallbacksAppend(nodes: seq<Handler>, h: Handler)
    ensures Callbacks(nodes + [h]) == Callbacks(nodes) + [h.callback]
  {
  }

  // -----------------------------------------------------------------------
  // A registration, a deletion, a shutdown.
  // -----------------------------------------------------------------------

  /** Callbacks run once each in registration order, a deleted one does not
      run, and a second shutdown runs nothing. */
  method FireInOrder(a: nat, b: nat, c: nat) returns (first: seq<nat>, second: seq<nat>)
    ensures first == [a, c]
    ensures second == [a, c]
  {
    var l := new ShutdownList();
    var ka := l.Add(a);
    var kb := l.Add(b);
    var kc := l.Add(c);
    assert l.nodes[1].cookie == kb;
    l.Delete(Some(kb));
    assert l.nodes == [Handler(ka, a), Handler(kc, c)];
    l.Delete(None);
    l.Fire();
    first := l.fired;
    l.Fire();
    second := l.fired;
  }

  /** Deleting on an empty list is ignored, even for a cookie already fired. */
  method DeleteAfterFire(a: nat) returns (run: seq<nat>, left: nat)
    ensures run == [a] && left == 0
  {
    var l := new ShutdownList();
    var ka := l.Add(a);
    l.Fire();
    l.Delete(Some(ka));
    run := l.fired;
    left := |l.nodes|;
  }
}
