/**
 * `BrowserPool`: one headless browser and a FIFO queue of its idle tabs.
 * The queue is `asyncio.Queue(maxsize=size)`, which is bounded only when
 * `size > 0`; a `get` on an empty queue and a `put` on a full one would wait,
 * and here they are preconditions instead.
 */
module Pool {
  import opened Wrappers

  /** A started browser process (what `nodriver.start` returns). */
  datatype Session = Session(id: nat)

  /** A tab of a browser: index 0 is the first `about:blank` tab, the others were opened as new tabs. */
  datatype Tab = Tab(session: Session, index: nat)

  /** What the pool's queue has lent out and taken back, in order. */
  datatype PoolEvent = Acquired(tab: Tab) | Released(tab: Tab)

  /** `init_pool` puts the first tab and then `size - 1` more (none when `size <= 1`). */
  function InitialTabCount(size: int): nat {
    if size > 1 then size else 1
  }

  /** The first `n` tabs of `session`, in the order they were opened. */
  function TabsOf(session: Session, n: nat): (tabs: seq<Tab>)
    ensures |tabs| == n
    ensures forall i :: 0 <= i < n ==> tabs[i] == Tab(session, i)
  {
    if n == 0 then [] else TabsOf(session, n - 1) + [Tab(session, n - 1)]
  }

  /** A pool of at least one tab starts with exactly `size` tabs, the first opened at the front. */
  lemma InitialTabsShape(session: Session, size: int)
    requires size >= 1
    ensures var tabs := TabsOf(session, InitialTabCount(size));
      |tabs| == size && tabs[0] == Tab(session, 0)
      && forall i, j :: 0 <= i < j < |tabs| ==> tabs[i] != tabs[j]
  {
  }

  /** Taking the front tab and putting it back at the end keeps the same idle tabs. */
  lemma {:induction false} RotateKeepsTabs(tabs: seq<Tab>)
    requires tabs != []
    ensures |tabs[1..] + [tabs[0]]| == |tabs|
    ensures multiset(tabs[1..] + [tabs[0]]) == multiset(tabs)
  {
    calc {
      multiset(tabs);
      { assert tabs == [tabs[0]] + tabs[1..]; }
      multiset([tabs[0]] + tabs[1..]);
      multiset(tabs[1..] + [tabs[0]]);
    }
  }

  class BrowserPool {
    const size: int
    var browser: Option<Session>
    var tabs: seq<Tab>
    ghost var events: seq<PoolEvent>

    /** The queue never holds more than its maximum size. */
    ghost predicate Valid()
      reads this
    {
      size > 0 ==> |tabs| <= size
    }

    /** A `put` would not wait. */
    predicate HasRoom()
      reads this
    {
      size <= 0 || |tabs| < size
    }

    constructor (size: int)
      ensures Valid()
      ensures this.size == size && browser == None && tabs == [] && events == []
    {
      this.size := size;
      browser := None;
      tabs := [];
      events := [];
    }

    /** `self.tabs.put(tab)`. */
    method Put(tab: Tab)
      requires Valid() && HasRoom()
      modifies this
      ensures Valid()
      ensures tabs == old(tabs) + [tab]
      ensures browser == old(browser) && events == old(events)
    {
      tabs := tabs + [tab];
    }

    /**
     * `init_pool`: when no browser is running, take `session` as the browser
     * and queue its first tab and `size - 1` new ones; otherwise do nothing.
     * The puts must not wait, so the queue must have room for all of them.
     */
    method InitPool(session: Session)
      requires Valid()
      requires browser == None ==> size <= 0 || |tabs| + InitialTabCount(size) <= size
      modifies this
      ensures Valid()
      ensures old(browser) == None ==> browser == Some(session) && tabs == old(tabs) + TabsOf(session, InitialTabCount(size))
      ensures old(browser) != None ==> browser == old(browser) && tabs == old(tabs)
      ensures events == old(events)
    {
      if browser == None {
        browser := Some(session);
        Put(Tab(session, 0));
        var i := 1;
        while i < size
          invariant 1 <= i <= InitialTabCount(size)
          invariant Valid()
          invariant browser == Some(session) && events == old(events)
          invariant tabs == old(tabs) + TabsOf(session, i)
        {
          Put(Tab(session, i));
          i := i + 1;
        }
      }
    }

    /** `acquire`: remove and return the tab at the front of the queue. */
    method Acquire() returns (tab: Tab)
      requires Valid() && tabs != []
      modifies this
      ensures Valid() && HasRoom()
      ensures tab == old(tabs)[0] && tabs == old(tabs)[1..]
      ensures browser == old(browser)
      ensures events == old(events) + [Acquired(tab)]
    {
      tab := tabs[0];
      tabs := tabs[1..];
      events := events + [Acquired(tab)];
    }

    /** `release`: put `tab` back at the end of the queue. */
    method Release(tab: Tab)
      requires Valid() && HasRoom()
      modifies this
      ensures Valid()
      ensures tabs == old(tabs) + [tab]
      ensures browser == old(browser)
      ensures events == old(events) + [Released(tab)]
    {
      Put(tab);
      events := events + [Released(tab)];
    }

    /**
     * `close`: stop the running browser, if any, and forget it. The idle tabs
     * stay queued. `stopped` is the browser that was stopped.
     */
    method Close() returns (stopped: Option<Session>)
      requires Valid()
      modifies this
      ensures Valid()
      ensures stopped == old(browser) && browser == None
      ensures tabs == old(tabs) && events == old(events)
    {
      stopped := None;
      if browser != None {
        stopped := browser;
        browser := None;
      }
    }
  }

  /** Start-up followed by shut-down: the tabs of the stopped browser are still queued. */
  method StartThenStop(size: int, session: Session) returns (pool: BrowserPool)
    ensures fresh(pool) && pool.Valid()
    ensures pool.browser == None
    ensures pool.tabs == TabsOf(session, InitialTabCount(size))
  {
    pool := new BrowserPool(size);
    pool.InitPool(session);
    pool.InitPool(Session(session.id + 1));
    var stopped := pool.Close();
    assert stopped == Some(session);
    stopped := pool.Close();
    assert stopped == None;
  }
}
