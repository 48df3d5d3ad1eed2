/** api_msg.c: a TCP netconn, its request handlers and its callbacks, all run by the tcpip thread.
    One application thread uses the netconn, and waits until each of its messages is acknowledged. */
module Netconn {
  import opened TcpWrite

  datatype State = NONE | WRITE | LISTEN | CONNECT | CLOSE

  datatype Shut = RD | WR | RDWR

  /** struct api_msg_msg. The acknowledgements are the signals of op_completed that release its sender. */
  class ApiMsg {
    const data: seq<Byte>       // msg.w.dataptr
    const dontblock: bool       // NETCONN_DONTBLOCK in msg.w.apiflags
    var len: nat                // msg.w.len
    var shut: Shut              // msg.sd.shut
    var err: Err
    ghost var acks: nat

    constructor (data: seq<Byte>, dontblock: bool, shut: Shut)
      ensures this.data == data && this.dontblock == dontblock && this.shut == shut
      ensures len == |data| && err == ERR_OK && acks == 0
    {
      this.data, this.dontblock, this.len, this.shut, err, acks := data, dontblock, |data|, shut, ERR_OK, 0;
    }
  }

  lemma JoinChunk(before: seq<Byte>, data: seq<Byte>, offset: nat, n: nat)
    requires offset + n <= |data|
    ensures before + data[..offset] + data[offset..offset + n] == before + (data[..offset] + data[offset..offset + n])
    ensures before + data[..offset] + data[offset..offset + n] == before + data[..offset + n]
  {
  }

  class Conn {
    var state: State
    var hasPcb: bool            // pcb.tcp != NULL
    var lastErr: Err
    var nonblocking: bool       // NETCONN_FLAG_NON_BLOCKING
    var connecting: bool        // NETCONN_FLAG_IN_NONBLOCKING_CONNECT
    var writeOffset: nat
    var currentMsg: ApiMsg?
    // what tcp_write has accepted on this connection, and how much of it before the current write
    ghost var handed: seq<Byte>
    ghost var before: seq<Byte>

    /** A request is pending exactly in the states WRITE, CLOSE and blocking CONNECT, and not yet acknowledged. */
    ghost predicate Valid()
      reads this, currentMsg
    {
      && (currentMsg != null <==> state == WRITE || state == CLOSE || (state == CONNECT && !connecting))
      && (connecting ==> state == CONNECT || (state == CLOSE && currentMsg.shut == RDWR) || !hasPcb)
      && (state != NONE ==> hasPcb)
      && (currentMsg != null ==> currentMsg.acks == 0)
      && (state == WRITE ==>
            && writeOffset < currentMsg.len == |currentMsg.data|
            && handed == before + currentMsg.data[..writeOffset])
    }

    /** The write in progress, as do_writemore sees it. */
    ghost function WriteView(): Progress
      requires currentMsg != null && writeOffset <= |currentMsg.data|
      reads this, currentMsg
    {
      Progress(writeOffset, currentMsg.len, currentMsg.data[..writeOffset], false, ERR_OK)
    }

    /** The pending request, if any, is still pending, or has been acknowledged once and forgotten;
        everything else about requests is as it was. */
    twostate predicate Served(m: ApiMsg?)
      reads this, m
    {
      && nonblocking == old(nonblocking)
      && if m == null then currentMsg == null
      else
        && m.shut == old(m.shut)
        && ((currentMsg == m && m.acks == old(m.acks) && state == old(state)) || (currentMsg == null && state == NONE && m.acks == 1))
    }

    /** netconn_alloc */
    constructor (nonblocking: bool)
      ensures Valid() && state == NONE && currentMsg == null && !hasPcb && writeOffset == 0 && this.nonblocking == nonblocking
      ensures !connecting && lastErr == ERR_OK && handed == []
    {
      state, hasPcb, lastErr, connecting, writeOffset, currentMsg := NONE, false, ERR_OK, false, 0, null;
      this.nonblocking := nonblocking;
      handed, before := [], [];
    }

    /** sys_sem_signal(&conn->op_completed) for m: only ever done when m is not pending, or not any more. */
    ghost method Acknowledge(m: ApiMsg)
      requires currentMsg != m && m.acks == 0
      modifies m`acks
      ensures m.acks == 1
    {
      m.acks := 1;
    }

    /** What one visit of do_writemore reports to the write in progress. */
    ghost function NextView(v: Visit): Progress
      requires Valid() && state == WRITE
      reads this, currentMsg
    {
      TcpWrite.WriteMore(currentMsg.data, nonblocking || currentMsg.dontblock, WriteView(), v)
    }

    /** The part of do_writemore that hands bytes to tcp_write, once it has accepted len of them. */
    method Accepted(len: nat, dontblock: bool) returns (finished: bool)
      requires Valid() && state == WRITE && writeOffset + len <= currentMsg.len
      modifies this`writeOffset, this`handed, currentMsg`len
      ensures var end := old(writeOffset) + len;
        && handed == before + currentMsg.data[..end]
        && handed == before + (currentMsg.data[..old(writeOffset)] + currentMsg.data[old(writeOffset)..end])
        && (finished <==> end == old(currentMsg.len) || dontblock)
        && writeOffset == (if finished then 0 else end)
        && currentMsg.len == if finished then end else old(currentMsg.len)
    {
      var m := currentMsg;
      JoinChunk(before, m.data, writeOffset, len);
      handed := handed + m.data[writeOffset..writeOffset + len];
      writeOffset := writeOffset + len;
      finished := false;
      if writeOffset == m.len || dontblock {
        m.len := writeOffset;
        finished := true;
        writeOffset := 0;
      }
    }

    /** do_writemore up to the point where the write is finished, with err, or not. */
    method Offer(v: Visit) returns (finished: bool, err: Err)
      requires Valid() && state == WRITE
      modifies this`writeOffset, this`handed, currentMsg`len
      ensures var q := old(NextView(v));
        && finished == q.finished && writeOffset == q.offset && currentMsg.len == q.len
        && handed == before + q.handed && (finished ==> err == q.err)
      ensures !finished ==> Valid()
    {
      var m := currentMsg;
      var dontblock := nonblocking || m.dontblock;
      if v.timedOut {
        if writeOffset == 0 {
          m.len := 0;
          return true, ERR_WOULDBLOCK;
        }
        m.len := writeOffset;
        return true, ERR_OK;
      }
      var diff := m.len - writeOffset;
      var len := if diff > 0xffff then 0xffff else diff;
      var available := v.sndbuf;
      err := v.writeErr;
      if available < len {
        len := available;
        if dontblock && len == 0 {
          err := ERR_WOULDBLOCK;
        }
      }
      if err == ERR_OK {
        finished := Accepted(len, dontblock);
      } else if err == ERR_MEM && !dontblock {
        finished := false;
      } else {
        finished := true;
        m.len := 0;
      }
    }

    /** do_writemore: one visit of the write in progress. */
    method WriteMore(v: Visit)
      requires Valid() && state == WRITE
      modifies this, currentMsg
      ensures Valid() && connecting == old(connecting) && hasPcb == old(hasPcb) && before == old(before)
      ensures Served(old(currentMsg))
      ensures var q := old(NextView(v));
        && writeOffset == q.offset && handed == old(before) + q.handed
        && old(currentMsg).len == q.len
        && if q.finished then old(currentMsg).acks == 1 && old(currentMsg).err == q.err else currentMsg == old(currentMsg)
      ensures lastErr == old(lastErr)
    {
      var m := currentMsg;
      var finished, err := Offer(v);
      if finished {
        m.err := err;
        currentMsg := null;
        state := NONE;
        Acknowledge(m);
      }
    }

    /** do_newconn, with what tcp_new answers. It is not called on a netconn that was deleted while connecting. */
    method DoNewconn(m: ApiMsg, newErr: Err)
      requires Valid() && currentMsg != m && m.acks == 0 && !connecting
      modifies this, m
      ensures Taken(m) && m.acks == 1 && state == old(state) && writeOffset == old(writeOffset)
      ensures !connecting
      ensures hasPcb <==> old(hasPcb) || newErr == ERR_OK
      ensures m.err == if old(hasPcb) then ERR_OK else newErr
    {
      m.err := ERR_OK;
      if !hasPcb {
        m.err := newErr;
        hasPcb := newErr == ERR_OK;
      }
      Acknowledge(m);
    }

    /** do_write. A previous write that ended half-way must not have left its offset behind. */
    method DoWrite(m: ApiMsg, v: Visit)
      requires Valid() && currentMsg != m && m.acks == 0 && 0 < m.len == |m.data|
      requires state == NONE && hasPcb && !IsFatal(lastErr) ==> writeOffset == 0
      modifies this, m
      ensures Valid() && m.acks <= 1 && currentMsg == if m.acks == 1 then old(currentMsg) else m
      ensures hasPcb == old(hasPcb) && connecting == old(connecting)
      ensures old(state) != NONE || !hasPcb || IsFatal(old(lastErr)) ==>
        && m.acks == 1 && handed == old(handed) && state == old(state)
        && m.err == if IsFatal(old(lastErr)) then old(lastErr) else if old(state) != NONE then ERR_INPROGRESS else ERR_CONN
      ensures nonblocking == old(nonblocking) && lastErr == old(lastErr)
      ensures state == WRITE || (old(state) == NONE && hasPcb && !IsFatal(lastErr)) || writeOffset == old(writeOffset)
      ensures old(state) == NONE && hasPcb && !IsFatal(old(lastErr)) ==>
        var q := TcpWrite.WriteMore(m.data, nonblocking || m.dontblock, Start(m.data), v);
        && handed == old(handed) + q.handed && before == old(handed)
        && writeOffset == q.offset
        && if q.finished then m.acks == 1 && m.err == q.err && m.len == q.len && state == NONE else state == WRITE
    {
      if IsFatal(lastErr) {
        m.err := lastErr;
      } else if state != NONE {
        m.err := ERR_INPROGRESS;
      } else if hasPcb {
        state := WRITE;
        currentMsg := m;
        writeOffset := 0;
        before := handed;
        assert WriteView() == Start(m.data);
        WriteMore(v);
        return;
      } else {
        m.err := ERR_CONN;
      }
      Acknowledge(m);
    }

    /** do_close_internal: one attempt to close or shut down, with what tcp_close or tcp_shutdown answers. */
    method CloseInternal(closeErr: Err)
      requires Valid() && state == CLOSE
      modifies this, currentMsg
      ensures Valid() && Served(old(currentMsg))
      ensures handed == old(handed) && writeOffset == old(writeOffset) && lastErr == old(lastErr)
      ensures if closeErr == ERR_OK
        then old(currentMsg).acks == 1 && old(currentMsg).err == ERR_OK && state == NONE
             && hasPcb == (old(currentMsg.shut) != RDWR)
        else currentMsg == old(currentMsg) && state == CLOSE && hasPcb
      ensures connecting == old(connecting) && old(currentMsg).shut == old(currentMsg.shut)
    {
      var m := currentMsg;
      if closeErr == ERR_OK {
        m.err := ERR_OK;
        currentMsg := null;
        state := NONE;
        if m.shut == RDWR {
          hasPcb := false;
        }
        Acknowledge(m);
      }
    }

    /** A request that is answered at once, or left pending as the netconn's current one. */
    twostate predicate Taken(m: ApiMsg)
      reads this, m, currentMsg
    {
      && Valid() && handed == old(handed) && lastErr == old(lastErr) && nonblocking == old(nonblocking)
      && (if m.acks == 1 then currentMsg == old(currentMsg) else m.acks == 0 && currentMsg == m && old(currentMsg) == null)
    }

    /** do_close (netconn_close and netconn_shutdown). */
    method DoClose(m: ApiMsg, closeErr: Err)
      requires Valid() && currentMsg != m && m.acks == 0
      requires hasPcb && (state == NONE || (state == LISTEN && m.shut == RDWR)) ==> writeOffset == 0
      requires state == LISTEN ==> closeErr == ERR_OK
      modifies this, m
      ensures Taken(m) && writeOffset == old(writeOffset) && connecting == old(connecting) && (hasPcb ==> old(hasPcb))
      ensures old(state) == CONNECT || old(state) == WRITE || old(state) == CLOSE ==>
        m.acks == 1 && m.err == ERR_INPROGRESS && state == old(state) && hasPcb
      ensures !old(hasPcb) ==> m.acks == 1 && m.err == ERR_VAL && state == old(state)
      ensures old(state) == LISTEN && m.shut != RDWR ==> m.acks == 1 && m.err == ERR_CONN && state == LISTEN
      ensures old(hasPcb) && (old(state) == NONE || (old(state) == LISTEN && m.shut == RDWR)) ==>
        if closeErr == ERR_OK then m.acks == 1 && m.err == ERR_OK && state == NONE && hasPcb == (m.shut != RDWR)
        else m.acks == 0 && state == CLOSE && hasPcb
      ensures m.shut == old(m.shut)
    {
      if state != NONE && state != LISTEN {
        m.err := ERR_INPROGRESS;
      } else if hasPcb {
        if m.shut != RDWR && state == LISTEN {
          m.err := ERR_CONN;
        } else {
          state := CLOSE;
          currentMsg := m;
          CloseInternal(closeErr);
          return;
        }
      } else {
        m.err := ERR_VAL;
      }
      Acknowledge(m);
    }

    /** do_delconn. A non-blocking connect may be outstanding, its flag stays set; a blocking one, or an
        offset left behind, fails an assertion. */
    method DoDelconn(m: ApiMsg, closeErr: Err)
      requires Valid() && currentMsg != m && m.acks == 0
      requires state == CONNECT ==> connecting
      requires hasPcb && state != WRITE && state != CLOSE ==> writeOffset == 0
      requires state == LISTEN ==> closeErr == ERR_OK
      modifies this, m
      ensures Taken(m) && connecting == old(connecting) && writeOffset == old(writeOffset)
      ensures old(state) == WRITE || old(state) == CLOSE ==>
        m.acks == 1 && m.err == ERR_INPROGRESS && state == old(state) && hasPcb
      ensures old(state) != WRITE && old(state) != CLOSE ==>
        if !old(hasPcb) || closeErr == ERR_OK then m.acks == 1 && !hasPcb && state == NONE
        else m.acks == 0 && state == CLOSE && m.shut == RDWR && hasPcb
    {
      if state != NONE && state != LISTEN && state != CONNECT {
        m.err := ERR_INPROGRESS;
      } else if hasPcb {
        state := CLOSE;
        m.shut := RDWR;
        currentMsg := m;
        CloseInternal(closeErr);
        return;
      }
      Acknowledge(m);
    }

    /** do_connect, with what tcp_connect answers. */
    method DoConnect(m: ApiMsg, connectErr: Err)
      requires Valid() && currentMsg != m && m.acks == 0
      modifies this, m
      ensures Taken(m) && hasPcb == old(hasPcb) && writeOffset == old(writeOffset)
      ensures connecting == if hasPcb && old(state) == NONE && connectErr == ERR_OK then nonblocking else old(connecting)
      ensures !hasPcb ==> m.acks == 1 && m.err == ERR_CLSD && state == old(state)
      ensures hasPcb && old(state) != NONE ==> m.acks == 1 && m.err == ERR_ISCONN && state == old(state)
      ensures hasPcb && old(state) == NONE && connectErr != ERR_OK ==> m.acks == 1 && m.err == connectErr && state == NONE
      ensures hasPcb && old(state) == NONE && connectErr == ERR_OK ==>
        && state == CONNECT && connecting == nonblocking
        && if nonblocking then m.acks == 1 && m.err == ERR_INPROGRESS else m.acks == 0
    {
      if !hasPcb {
        m.err := ERR_CLSD;
      } else if state != NONE {
        m.err := ERR_ISCONN;
      } else {
        m.err := connectErr;
        if connectErr == ERR_OK {
          state := CONNECT;
          connecting := nonblocking;
          if nonblocking {
            m.err := ERR_INPROGRESS;
          } else {
            currentMsg := m;
            return;
          }
        }
      }
      Acknowledge(m);
    }

    /** do_listen, with what tcp_listen and sys_mbox_new answer. */
    method DoListen(m: ApiMsg, listened: bool, mboxErr: Err)
      requires Valid() && currentMsg != m && m.acks == 0
      modifies this, m
      ensures Taken(m) && m.acks == 1 && connecting == old(connecting) && writeOffset == old(writeOffset)
      ensures var able := !IsFatal(lastErr) && old(hasPcb) && old(state) == NONE;
        && state == (if able && listened && mboxErr == ERR_OK then LISTEN else old(state))
        && hasPcb == (old(hasPcb) && !(able && listened && mboxErr != ERR_OK))
        && m.err == if IsFatal(lastErr) then lastErr else if !able then ERR_CONN else if !listened then ERR_MEM else mboxErr
    {
      if IsFatal(lastErr) {
        m.err := lastErr;
      } else {
        m.err := ERR_CONN;
        if hasPcb && state == NONE {
          if !listened {
            m.err := ERR_MEM;
          } else {
            m.err := mboxErr;
            if mboxErr == ERR_OK {
              state := LISTEN;
            } else {
              hasPcb := false;
            }
          }
        }
      }
      Acknowledge(m);
    }

    // ------------------------------------------------------------ callbacks

    /** do_connected: the connect attempt has come to an end. */
    method Connected(err: Err)
      requires Valid() && state == CONNECT
      modifies this, currentMsg
      ensures Valid() && Served(old(currentMsg)) && state == NONE && currentMsg == null && !connecting
      ensures old(currentMsg) != null ==> old(currentMsg).acks == 1 && old(currentMsg).err == err
      ensures handed == old(handed) && writeOffset == old(writeOffset) && hasPcb == old(hasPcb)
      ensures lastErr == if old(connecting) && !IsFatal(old(lastErr)) then ERR_OK else old(lastErr)
    {
      var m := currentMsg;
      if m != null {
        m.err := err;
      }
      var wasBlocking := !connecting;
      connecting := false;
      currentMsg := null;
      state := NONE;
      if !wasBlocking && !IsFatal(lastErr) {
        lastErr := ERR_OK;
      }
      if wasBlocking {
        Acknowledge(m);
      }
    }

    /** A delete request that found a non-blocking connect outstanding and could not close at once. */
    ghost predicate DeletingWhileConnecting()
      reads this
    {
      state == CLOSE && connecting
    }

    /** err_tcp: the pcb is gone. The pending request is acknowledged with the error, unless it is a delete
        that found a non-blocking connect outstanding: that one is never acknowledged. */
    method ErrTcp(err: Err)
      requires Valid() && hasPcb
      modifies this, currentMsg
      ensures !hasPcb && state == NONE && lastErr == err && !connecting
      ensures Valid() && Served(old(currentMsg)) && currentMsg == null <==> !old(DeletingWhileConnecting())
      ensures old(currentMsg) != null && !old(DeletingWhileConnecting()) ==>
        old(currentMsg).acks == 1 && old(currentMsg).err == err
      ensures old(DeletingWhileConnecting()) ==> currentMsg == old(currentMsg) && currentMsg.acks == 0
      ensures handed == old(handed) && writeOffset == old(writeOffset) && nonblocking == old(nonblocking)
    {
      hasPcb := false;
      lastErr := err;
      var oldState := state;
      state := NONE;
      if oldState == WRITE || oldState == CLOSE || oldState == CONNECT {
        var wasNonblockingConnect := connecting;
        connecting := false;
        if !wasNonblockingConnect {
          var m := currentMsg;
          m.err := err;
          currentMsg := null;
          Acknowledge(m);
        }
      }
    }

    /** poll_tcp and sent_tcp, as far as requests go: try again what is pending. */
    method Retry(v: Visit, closeErr: Err)
      requires Valid() && hasPcb
      modifies this, currentMsg
      ensures Valid() && Served(old(currentMsg)) && lastErr == old(lastErr) && connecting == old(connecting)
      ensures old(state) != WRITE ==> handed == old(handed)
      ensures old(state) != WRITE && old(state) != CLOSE ==>
        state == old(state) && currentMsg == old(currentMsg) && hasPcb && writeOffset == old(writeOffset)
      ensures old(state) != CLOSE ==> hasPcb
      ensures old(state) == CLOSE ==> writeOffset == old(writeOffset)
      ensures old(state) == CLOSE ==>
        && (old(currentMsg).acks == 1 <==> closeErr == ERR_OK) && old(currentMsg).shut == old(currentMsg.shut)
        && (hasPcb <==> closeErr != ERR_OK || old(currentMsg.shut) != RDWR)
      ensures old(state) == WRITE ==>
        var q := TcpWrite.WriteMore(old(currentMsg).data, nonblocking || old(currentMsg).dontblock, old(WriteView()), v);
        && writeOffset == q.offset && handed == old(before) + q.handed && old(currentMsg).len == q.len
        && if q.finished then old(currentMsg).acks == 1 && old(currentMsg).err == q.err else currentMsg == old(currentMsg)
    {
      if state == WRITE {
        WriteMore(v);
      } else if state == CLOSE {
        CloseInternal(closeErr);
      }
    }
  }
}
