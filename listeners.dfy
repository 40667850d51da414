/**
 * The listener registry each manager keeps (`on`, `off`, `trigger`): event names mapped to
 * the callbacks registered for them, in registration order. Callbacks are named by an id.
 */
module Listeners {
  import opened Sequences

  type HandlerId = nat

  type ListenerMap = map<string, seq<HandlerId>>

  /** The callbacks `trigger(event, data)` calls, in the order it calls them. */
  function Recipients(m: ListenerMap, event: string): (hs: seq<HandlerId>)
    ensures event !in m ==> hs == []
    ensures event in m ==> hs == m[event]
  {
    if event in m then m[event] else []
  }

  /** `on(event, callback)`: the callback joins the end of the event's list, creating it if needed. */
  function On(m: ListenerMap, event: string, h: HandlerId): (r: ListenerMap)
    ensures Recipients(r, event) == Recipients(m, event) + [h]
    ensures r.Keys == m.Keys + {event}
    ensures forall e :: e in m && e != event ==> r[e] == m[e]
  {
    m[event := Recipients(m, event) + [h]]
  }

  /** The list with every occurrence of `h` removed (`filter(cb => cb !== callback)`). */
  function Without(hs: seq<HandlerId>, h: HandlerId): (r: seq<HandlerId>)
    ensures h !in r
    ensures forall x :: x != h ==> multiset(r)[x] == multiset(hs)[x]
    ensures h !in hs ==> r == hs
    ensures Subsequence(r, hs)
  {
    if hs == [] then []
    else
      assert hs == [hs[0]] + hs[1..];
      var rest := Without(hs[1..], h);
      if hs[0] == h then rest
      else
        assert ([hs[0]] + rest)[1..] == rest;
        [hs[0]] + rest
  }

  lemma {:induction false} WithoutAppend(s: seq<HandlerId>, t: seq<HandlerId>, h: HandlerId)
    ensures Without(s + t, h) == Without(s, h) + Without(t, h)
  {
    if s == [] {
      assert s + t == t;
    } else {
      assert (s + t)[1..] == s[1..] + t;
      WithoutAppend(s[1..], t, h);
    }
  }

  /**
   * `off(event, callback)`: every registration of the callback for that event goes, the other
   * callbacks keep their order; an event nobody listens to is left as it is.
   */
  function Off(m: ListenerMap, event: string, h: HandlerId): (r: ListenerMap)
    ensures event !in m || h !in Recipients(m, event) ==> r == m
    ensures Subsequence(Recipients(r, event), Recipients(m, event))
    ensures h !in Recipients(r, event)
    ensures forall x :: x != h ==> multiset(Recipients(r, event))[x] == multiset(Recipients(m, event))[x]
    ensures r.Keys == m.Keys
    ensures forall e :: e in m && e != event ==> r[e] == m[e]
  {
    if event !in m then m else m[event := Without(m[event], h)]
  }

  /** Removing a callback undoes adding it, as far as `trigger` can tell. */
  lemma OffUndoesOn(m: ListenerMap, event: string, h: HandlerId)
    ensures Recipients(Off(On(m, event, h), event, h), event) == Recipients(Off(m, event, h), event)
  {
    WithoutAppend(Recipients(m, event), [h], h);
  }
}
