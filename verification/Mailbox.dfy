/** sys_arch.c: the mailbox, a ring buffer with two saturating semaphores and a count of waiting senders.
    Each method is one region run under the mailbox mutex, or one wait on a semaphore. */
module Mailbox {
  import opened Common

  const SIZE: nat := 128

  /** A message is a pointer; NULL is one of them. */
  type Msg = int

  /** The fields of struct sys_mbox. The indices count messages and are reduced modulo SIZE on access. */
  datatype Box = Box(first: nat, last: nat, msgs: seq<Msg>, notEmpty: nat, notFull: nat, waitSend: int)

  /** sys_sem_signal on the counter: increment, but never above 1. */
  function Signalled(c: nat): nat {
    if c + 1 > 1 then 1 else c + 1
  }

  predicate Full(b: Box) {
    b.last + 1 >= b.first + SIZE
  }

  predicate Empty(b: Box) {
    b.first == b.last
  }

  /** Storing a message, and signalling when it is the only one. */
  function Put(b: Box, m: Msg): Box
    requires |b.msgs| == SIZE
  {
    b.(msgs := b.msgs[b.last % SIZE := m],
       last := b.last + 1,
       notEmpty := if b.first == b.last then Signalled(b.notEmpty) else b.notEmpty)
  }

  /** Taking a message, and signalling when a sender waits. */
  function Take(b: Box): Box {
    b.(first := b.first + 1, notFull := if b.waitSend != 0 then Signalled(b.notFull) else b.notFull)
  }

  function Head(b: Box): Msg
    requires |b.msgs| == SIZE
  {
    b.msgs[b.first % SIZE]
  }

  class Mbox {
    var first: nat
    var last: nat
    const msgs: array<Msg>
    var notEmpty: nat
    var notFull: nat
    var waitSend: int

    ghost function View(): Box
      reads this, msgs
    {
      Box(first, last, msgs[..], notEmpty, notFull, waitSend)
    }

    ghost predicate Valid()
      reads this, msgs
    {
      msgs.Length == SIZE
    }

    /** sys_mbox_new */
    constructor ()
      ensures Valid() && fresh(msgs)
      ensures Empty(View()) && notEmpty == notFull == 0 && waitSend == 0 && first == 0
    {
      first, last, notEmpty, notFull, waitSend := 0, 0, 0, 0, 0;
      msgs := new Msg[SIZE];
    }

    /** The tail of sys_mbox_post and sys_mbox_trypost, once there is room. */
    method Store(m: Msg)
      requires Valid() && !Full(View())
      modifies this`last, this`notEmpty, msgs
      ensures View() == Put(old(View()), m)
    {
      msgs[last % SIZE] := m;
      var isFirst := last == first;
      last := last + 1;
      if isFirst {
        notEmpty := Signalled(notEmpty);
      }
    }

    /** sys_mbox_post up to the first release of the mutex: stored, or counted as waiting. */
    method PostEnter(m: Msg) returns (done: bool)
      requires Valid()
      modifies this, msgs
      ensures done <==> old(last) - old(first) < 127
      ensures View() == if done then Put(old(View()), m) else old(View()).(waitSend := old(waitSend) + 1)
    {
      if last + 1 >= first + SIZE {
        waitSend := waitSend + 1;
        return false;
      }
      Store(m);
      return true;
    }

    /** sys_mbox_post from re-acquiring the mutex, after the wait on not_full. */
    method PostResume(m: Msg) returns (done: bool)
      requires Valid()
      modifies this, msgs
      ensures done <==> old(last) - old(first) < 127
      ensures View() == if done then Put(old(View()).(waitSend := old(waitSend) - 1), m) else old(View())
    {
      waitSend := waitSend - 1;
      done := PostEnter(m);
    }

    /** sys_mbox_trypost: false stands for ERR_MEM. */
    method TryPost(m: Msg) returns (ok: bool)
      requires Valid()
      modifies this, msgs
      ensures ok <==> old(last) - old(first) < 127
      ensures View() == if ok then Put(old(View()), m) else old(View())
    {
      if last + 1 >= first + SIZE {
        return false;
      }
      Store(m);
      return true;
    }

    /** One mutex region of sys_arch_mbox_fetch, and the whole of sys_arch_mbox_tryfetch:
        None when the mailbox is empty. */
    method FetchRegion() returns (r: Option<Msg>)
      requires Valid()
      modifies this
      ensures r == if old(first) == old(last) then None else Some(Head(old(View())))
      ensures View() == if r.None? then old(View()) else Take(old(View()))
    {
      if first == last {
        return None;
      }
      r := Some(msgs[first % SIZE]);
      first := first + 1;
      if waitSend != 0 {
        notFull := Signalled(notFull);
      }
    }
  }
}
