/** The client pool of the select-based echo server: slots of descriptors, the set given to select, and
    a scan that stops when the announced number of ready descriptors has been seen. */
module ClientPool {
  import opened Sequences

  const FD_SETSIZE: nat := 1024
  const FREE: int := -1

  /** `at` tells the slot of every descriptor in the pool. */
  ghost predicate Indexed(slots: seq<int>, at: map<int, nat>) {
    && (forall fd :: fd in at ==> at[fd] < |slots| && slots[at[fd]] == fd && fd != FREE)
    && (forall i :: 0 <= i < |slots| && slots[i] != FREE ==> slots[i] in at && at[slots[i]] == i)
  }

  /** Descriptors that a descriptor set can hold, up to `max`. */
  ghost predicate InSet(fds: set<int>, max: int) {
    forall fd :: fd in fds ==> 0 <= fd <= max && fd < FD_SETSIZE
  }

  function Larger(a: int, b: int): int {
    if a < b then b else a
  }

  lemma FillSlot(slots: seq<int>, at: map<int, nat>, i: nat, fd: int)
    requires Indexed(slots, at) && i < |slots| && slots[i] == FREE && fd != FREE && fd !in at
    ensures Indexed(slots[i := fd], at[fd := i])
  {
  }

  lemma FreeAbove(slots: seq<int>, at: map<int, nat>, maxi: int)
    requires Indexed(slots, at) && -1 <= maxi < |slots| && forall fd :: fd in at ==> at[fd] <= maxi
    ensures forall j :: maxi < j < |slots| ==> slots[j] == FREE
  {
  }

  lemma ClearSlot(slots: seq<int>, at: map<int, nat>, i: nat)
    requires Indexed(slots, at) && i < |slots| && slots[i] != FREE
    ensures Indexed(slots[i := FREE], at - {slots[i]})
  {
  }

  /** The list holds each element of the set once and nothing else. */
  ghost predicate EachOnce(list: seq<int>, fds: set<int>) {
    (forall fd :: fd in list <==> fd in fds) && NoDuplicates(list)
  }

  lemma {:induction false} EachOnceCount(list: seq<int>, fds: set<int>)
    requires EachOnce(list, fds)
    ensures |list| == |fds|
  {
    if list == [] {
      forall fd ensures fd !in fds {
        assert fd in list <==> fd in fds;
      }
      assert fds <= {};
    } else {
      var n := |list| - 1;
      var init, last := list[..n], list[n];
      assert last in list;
      forall fd ensures fd in init <==> fd in fds - {last} {
        assert fd in list <==> fd in init || fd == last;
      }
      EachOnceCount(init, fds - {last});
    }
  }

  lemma {:induction false} BoundedSet(s: set<int>, n: nat)
    requires forall x :: x in s ==> 0 <= x < n
    ensures |s| <= n
  {
    if n == 0 {
      forall x ensures x !in s {}
      assert s <= {};
    } else {
      BoundedSet(s - {n - 1}, n - 1);
    }
  }

  /** When descriptors stay in the range of the sets, there is always a slot for another one. */
  lemma SlotIsFree(slots: seq<int>, at: map<int, nat>, fd: int)
    requires |slots| == FD_SETSIZE && Indexed(slots, at)
    requires 0 <= fd < FD_SETSIZE && fd !in at && exists max :: InSet(at.Keys, max)
    ensures FREE in slots
  {
    var max :| InSet(at.Keys, max);
    BoundedSet(at.Keys + {fd}, FD_SETSIZE);
    if FREE !in slots {
      forall x ensures x in slots <==> x in at.Keys {
        assert x in at ==> slots[at[x]] == x;
      }
      EachOnceCount(slots, at.Keys);
    }
  }

  // ---------------------------------------------------------------------------------------
  // The ready clients

  /** The descriptors that the scan takes for ready clients in the first `n` slots, in slot order. It asks
      for a positive descriptor, so it passes over descriptor 0 as over a free slot. */
  function ReadyIn(slots: seq<int>, ready: set<int>, n: nat): seq<int>
    requires n <= |slots|
  {
    if n == 0 then []
    else ReadyIn(slots, ready, n - 1) + if slots[n - 1] > 0 && slots[n - 1] in ready then [slots[n - 1]] else []
  }

  lemma {:induction false} ReadyPrefix(slots: seq<int>, ready: set<int>, m: nat, n: nat)
    requires m <= n <= |slots|
    ensures ReadyIn(slots, ready, m) <= ReadyIn(slots, ready, n)
    ensures (forall i :: m <= i < n ==> slots[i] == FREE) ==> ReadyIn(slots, ready, m) == ReadyIn(slots, ready, n)
    decreases n
  {
    if m < n { ReadyPrefix(slots, ready, m, n - 1); }
  }

  ghost predicate ReadyBelow(at: map<int, nat>, ready: set<int>, n: nat, fd: int) {
    fd in at && at[fd] < n && fd in ready && fd > 0
  }

  lemma {:induction false} ReadyInAre(slots: seq<int>, at: map<int, nat>, ready: set<int>, n: nat)
    requires n <= |slots| && Indexed(slots, at)
    ensures forall fd :: fd in ReadyIn(slots, ready, n) <==> ReadyBelow(at, ready, n, fd)
    ensures NoDuplicates(ReadyIn(slots, ready, n))
  {
    if n > 0 {
      ReadyInAre(slots, at, ready, n - 1);
      var before := ReadyIn(slots, ready, n - 1);
      assert forall i :: 0 <= i < |before| ==> before[i] in before;
      var fd' := slots[n - 1];
      assert forall fd :: fd != fd' ==> (ReadyBelow(at, ready, n, fd) <==> ReadyBelow(at, ready, n - 1, fd));
    }
  }

  /** The list holds each ready client but descriptor 0 once. */
  lemma ReadyCount(slots: seq<int>, at: map<int, nat>, ready: set<int>)
    requires Indexed(slots, at) && forall fd :: fd in at ==> fd >= 0
    ensures EachOnce(ReadyIn(slots, ready, |slots|), at.Keys * ready - {0})
    ensures |ReadyIn(slots, ready, |slots|)| == |at.Keys * ready - {0}|
  {
    ReadyInAre(slots, at, ready, |slots|);
    forall fd ensures fd in ReadyIn(slots, ready, |slots|) <==> fd in at.Keys * ready - {0} {
      assert fd in ReadyIn(slots, ready, |slots|) <==> ReadyBelow(at, ready, |slots|, fd);
    }
    EachOnceCount(ReadyIn(slots, ready, |slots|), at.Keys * ready - {0});
  }

  /** A pool whose only client is descriptor 0: whatever count select announces, the scan takes no client
      for ready although that one is. */
  lemma ClientZeroIsPassedOver(slots: seq<int>, nready: nat)
    requires |slots| == FD_SETSIZE && slots[0] == 0 && forall i :: 0 < i < FD_SETSIZE ==> slots[i] == FREE
    ensures Indexed(slots, map[0 := 0]) && 0 in map[0 := 0].Keys * {0}
    ensures Take(ReadyIn(slots, {0}, FD_SETSIZE), nready) == []
  {
    ReadyInAre(slots, map[0 := 0], {0}, FD_SETSIZE);
    var list := ReadyIn(slots, {0}, FD_SETSIZE);
    forall fd ensures fd !in list {
      assert fd in list <==> ReadyBelow(map[0 := 0], {0}, FD_SETSIZE, fd);
    }
    EachOnceCount(list, {});
  }

  /** Leaving out descriptor 0 reaches every ready client exactly when it is none of them. */
  lemma WithoutZero(list: seq<int>, fds: set<int>)
    requires EachOnce(list, fds - {0})
    ensures |list| == |fds| - if 0 in fds then 1 else 0
    ensures Reaches(list, fds) <==> 0 !in fds
  {
    EachOnceCount(list, fds - {0});
    if 0 !in fds { assert fds - {0} == fds; }
  }

  ghost predicate Reaches(list: seq<int>, fds: set<int>) {
    forall fd :: fd in fds ==> fd in list
  }

  function Take(s: seq<int>, n: nat): seq<int> {
    if n <= |s| then s[..n] else s
  }

  /** Stopping after `n` of them reaches every ready client exactly when `n` is not below their number. */
  lemma ScanIsComplete(list: seq<int>, fds: set<int>, n: nat)
    requires EachOnce(list, fds)
    ensures Reaches(Take(list, n), fds) <==> n >= |fds|
  {
    EachOnceCount(list, fds);
    if n < |list| {
      var fd := list[n];
      assert fd in list;
      assert fd in fds;
      forall i | 0 <= i < n ensures list[i] != list[n] {}
      assert list[n] !in Take(list, n);
    }
  }

  /** Besides the listening descriptor only clients are ready. */
  lemma ReadyClients(readSet: set<int>, clients: set<int>, ready: set<int>, listenfd: int)
    requires ready <= readSet && readSet == {listenfd} + clients && listenfd !in clients
    ensures clients * ready == ready - {listenfd}
    ensures |clients * ready| == |ready| - if listenfd in ready then 1 else 0
  {
    if listenfd !in ready { assert ready - {listenfd} == ready; }
  }

  // ---------------------------------------------------------------------------------------
  // The pool

  class Pool {
    const listenfd: int
    const clientfd: array<int>
    var maxfd: int
    var readSet: set<int>
    var readySet: set<int>
    var nready: int
    var maxi: int
    ghost var at: map<int, nat>

    /** The set given to select is the listening descriptor and the clients, each in one slot up to the
        high-water mark; and no descriptor exceeds the maximum. */
    ghost predicate Valid()
      reads this, clientfd
    {
      && clientfd.Length == FD_SETSIZE && listenfd >= 0 && -1 <= maxi < FD_SETSIZE
      && Indexed(clientfd[..], at)
      && readSet == {listenfd} + at.Keys && listenfd !in at
      && (forall fd :: fd in at ==> at[fd] <= maxi)
      && InSet(readSet, maxfd)
    }

    /** init_pool */
    constructor (listen: int)
      requires 0 <= listen < FD_SETSIZE
      ensures Valid() && fresh(clientfd) && at == map[] && listenfd == listen
    {
      listenfd := listen;
      maxi := -1;
      clientfd := new int[FD_SETSIZE];
      maxfd := listen;
      readSet, readySet, nready := {listen}, {}, 0;
      at := map[];
      new;
      var i := 0;
      while i < FD_SETSIZE
        invariant i <= FD_SETSIZE && forall j :: 0 <= j < i ==> clientfd[j] == FREE
        modifies clientfd
      {
        clientfd[i] := FREE;
        i := i + 1;
      }
    }

    /** add_client: the descriptor takes the first free slot; only when there is none is it left out. */
    method AddClient(connfd: int) returns (placed: bool)
      requires Valid() && 0 <= connfd < FD_SETSIZE && connfd !in readSet
      modifies `maxfd, `readSet, `nready, `maxi, `at, clientfd
      ensures Valid() && nready == old(nready) - 1
      ensures placed <==> FREE in old(clientfd[..])
      ensures !placed ==> at == old(at) && maxfd == old(maxfd) && maxi == old(maxi)
      ensures placed ==>
        && connfd in at && at == old(at)[connfd := at[connfd]]
        && at[connfd] < FD_SETSIZE && old(clientfd[..])[at[connfd]] == FREE && FREE !in old(clientfd[..])[..at[connfd]]
        && maxfd == Larger(old(maxfd), connfd) && maxi == Larger(old(maxi), at[connfd])
    {
      nready := nready - 1;
      var i := 0;
      while i < FD_SETSIZE
        invariant i <= FD_SETSIZE && FREE !in clientfd[..i]
      {
        if clientfd[i] < 0 {
          assert clientfd[..][i] == clientfd[i];
          FillSlot(clientfd[..], at, i, connfd);
          ghost var slots := clientfd[..];
          clientfd[i] := connfd;
          assert clientfd[..] == slots[i := connfd];
          at := at[connfd := i];
          readSet := readSet + {connfd};
          if connfd > maxfd { maxfd := connfd; }
          if i > maxi { maxi := i; }
          return true;
        }
        i := i + 1;
      }
      assert clientfd[..i] == clientfd[..];
      return false;
    }

    /** check_clients: exactly the first `nready` ready clients, in slot order; those of them at the end of
        their input are closed and leave the pool, and no others. */
    method CheckClients(ended: set<int>) returns (serviced: seq<int>, closed: set<int>)
      requires Valid() && nready >= 0
      modifies `nready, `readSet, `at, clientfd
      ensures Valid()
      ensures serviced == Take(ReadyIn(old(clientfd[..]), readySet, FD_SETSIZE), old(nready))
      ensures nready == old(nready) - |serviced|
      ensures at.Keys == old(at.Keys) - closed && forall fd :: fd in closed <==> fd in serviced && fd in ended
    {
      serviced, closed := [], {};
      ghost var slots := clientfd[..];
      var i := 0;
      while i <= maxi && nready > 0
        invariant 0 <= i <= maxi + 1 && Valid() && 0 <= nready == old(nready) - |serviced|
        invariant serviced == ReadyIn(slots, readySet, i)
        invariant forall j :: i <= j < FD_SETSIZE ==> clientfd[j] == slots[j]
        invariant at.Keys == old(at.Keys) - closed && forall fd :: fd in closed <==> fd in serviced && fd in ended
      {
        var connfd := clientfd[i];
        assert clientfd[..][i] == connfd;
        if connfd > 0 && connfd in readySet {
          nready := nready - 1;
          serviced := serviced + [connfd];
          if connfd in ended {
            closed := closed + {connfd};
            RemoveClient(i);
          }
        }
        i := i + 1;
      }
      ReadyPrefix(slots, readySet, i, FD_SETSIZE);
      FreeAbove(clientfd[..], at, maxi);
    }

    /** close, FD_CLR and freeing the slot */
    method RemoveClient(i: nat)
      requires Valid() && i < FD_SETSIZE && clientfd[i] != FREE
      modifies `readSet, `at, clientfd
      ensures Valid() && at.Keys == old(at.Keys) - {old(clientfd[i])}
      ensures forall j :: 0 <= j < FD_SETSIZE && j != i ==> clientfd[j] == old(clientfd[j])
    {
      ClearSlot(clientfd[..], at, i);
      ghost var slots := clientfd[..];
      readSet := readSet - {clientfd[i]};
      at := at - {clientfd[i]};
      clientfd[i] := FREE;
      assert clientfd[..] == slots[i := FREE];
    }

    /** With the exact number of ready clients every ready client but descriptor 0 is serviced once, although
        the scan stops early; so all are if and only if 0 is not one of them, and only then is the count
        used up. */
    method ServiceAll(ended: set<int>) returns (serviced: seq<int>, closed: set<int>)
      requires Valid() && nready == |at.Keys * readySet|
      modifies `nready, `readSet, `at, clientfd
      ensures Valid()
      ensures EachOnce(serviced, old(at.Keys) * readySet - {0})
      ensures Reaches(serviced, old(at.Keys) * readySet) <==> 0 !in old(at.Keys) * readySet
      ensures nready == 0 <==> 0 !in old(at.Keys) * readySet
      ensures at.Keys == old(at.Keys) - closed && forall fd :: fd in closed <==> fd in serviced && fd in ended
    {
      ghost var list, fds := ReadyIn(clientfd[..], readySet, FD_SETSIZE), at.Keys * readySet;
      ReadyCount(clientfd[..], at, readySet);
      WithoutZero(list, fds);
      assert Take(list, |fds|) == list;
      serviced, closed := CheckClients(ended);
      assert serviced == list;
    }

    /** The first half of a turn: what select reports, and the accepted client. */
    method Admit(ready: set<int>, connfd: int)
      requires Valid() && ready <= readSet && 0 <= connfd < FD_SETSIZE && connfd !in readSet
      modifies this, clientfd
      ensures Valid() && readySet == ready && nready == |at.Keys * ready|
      ensures at.Keys * ready == ready - {listenfd}
      ensures at.Keys == if listenfd in ready then old(at.Keys) + {connfd} else old(at.Keys)
    {
      Report(ready);
      if listenfd in readySet {
        Accept(connfd);
      }
      ReadyClients(readSet, at.Keys, ready, listenfd);
    }

    /** select */
    method Report(ready: set<int>)
      requires Valid() && ready <= readSet
      modifies `readySet, `nready
      ensures Valid() && readySet == ready && nready == |ready|
    {
      readySet := ready;
      nready := |ready|;
    }

    /** The new client always gets a slot. */
    method Accept(connfd: int)
      requires Valid() && 0 <= connfd < FD_SETSIZE && connfd !in readSet
      modifies `maxfd, `readSet, `nready, `maxi, `at, clientfd
      ensures Valid() && nready == old(nready) - 1
      ensures at.Keys == old(at.Keys) + {connfd} && old(readSet) <= readSet
      ensures maxfd == Larger(old(maxfd), connfd)
    {
      assert InSet(at.Keys, maxfd);
      SlotIsFree(clientfd[..], at, connfd);
      var placed := AddClient(connfd);
    }

    /** One turn of the server loop, for any set that select reports and any new descriptor that accept
        returns and the sets can hold; `ended` are the clients at the end of their input. The new client gets
        a slot, every ready client is serviced once if and only if descriptor 0 is not a ready client, and the
        serviced clients at the end of their input leave. */
    method Turn(ready: set<int>, connfd: int, ended: set<int>) returns (serviced: seq<int>, closed: set<int>)
      requires Valid() && ready <= readSet && 0 <= connfd < FD_SETSIZE && connfd !in readSet
      modifies this, clientfd
      ensures Valid()
      ensures EachOnce(serviced, ready - {listenfd} - {0})
      ensures Reaches(serviced, ready - {listenfd}) <==> 0 !in ready - {listenfd}
      ensures nready == 0 <==> 0 !in ready - {listenfd}
      ensures forall fd :: fd in closed <==> fd in serviced && fd in ended
      ensures at.Keys == (if listenfd in ready then old(at.Keys) + {connfd} else old(at.Keys)) - closed
    {
      Admit(ready, connfd);
      serviced, closed := ServiceAll(ended);
    }
  }
}
