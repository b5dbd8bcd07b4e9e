/** The connection object: the methods of its output side, in place, against the stream machine. */
module TcpConnections {
  import opened Common
  import opened OutputStream

  class TcpConnection {
    var state: ConnState
    var writing: bool
    var outputBuffer: seq<Byte>
    const highWaterMark: nat
    var log: seq<SocketOp>
    var queued: seq<Functor>
    ghost var posted: seq<Posted>
    ghost var offered: seq<Byte>
    ghost var kept: seq<Byte>
    ghost var lost: bool

    ghost function View(): Stream
      reads this
    {
      Stream(state, writing, outputBuffer, highWaterMark, log, queued, posted, offered, kept, lost)
    }

    constructor (mark: nat)
      ensures View() == Init(mark) && Inv(View())
    {
      state, writing, outputBuffer, highWaterMark := Connecting, false, [], mark;
      log, queued, posted, offered, kept, lost := [], [], [], [], [], false;
    }

    method ConnectEstablished()
      requires Inv(View()) && state == Connecting
      modifies this
      ensures Inv(View()) && View() == Apply(old(View()), Establish)
    {
      ApplyKeeps(View(), Establish);
      state := Connected;
    }

    /** The end of sendInLoop, with bytes left over. */
    method BufferRest(rest: seq<Byte>)
      requires rest != []
      modifies this`outputBuffer, this`queued, this`writing
      ensures View() == OutputStream.BufferRest(old(View()), rest)
    {
      var oldLen := |outputBuffer|;
      if highWaterMark <= oldLen + |rest| && oldLen < highWaterMark {
        queued := queued + [HighWater(oldLen + |rest|)];
      }
      outputBuffer := outputBuffer + rest;
      if !writing {
        writing := true;
      }
    }

    /** `w` is what the direct write, if one is tried, returns. */
    method SendInLoop(data: seq<Byte>, w: WriteResult)
      requires Inv(View()) && state != Connecting && Possible(w, |data|)
      modifies this
      ensures Inv(View()) && View() == OutputStream.SendInLoop(old(View()), data, w)
    {
      hide Inv, OutputStream.BufferRest;
      SendKeeps(View(), data, w);
      if state == Disconnected {
        return;
      }
      var nwrote := 0;
      var remaining := |data|;
      var faultError := false;
      offered := offered + data;
      if !writing && outputBuffer == [] {
        match w {
          case Wrote(n) =>
            nwrote := n;
            remaining := |data| - n;
            if remaining == 0 {
              queued := queued + [WriteComplete];
            }
          case WouldBlock =>
          case PeerReset => faultError := true;
          case OtherError =>
        }
        log := log + [Write(data[..nwrote])];
      }
      if faultError {
        lost := lost || data != [];
      } else {
        kept := kept + data;
      }
      assert data[0..] == data;
      if !faultError && remaining > 0 {
        BufferRest(data[nwrote..]);
      } else {
        BufferNothing(View());
        assert !faultError ==> data[nwrote..] == [];
      }
    }

    /** Called in the loop thread. */
    method Send(data: seq<Byte>, w: WriteResult)
      requires Inv(View()) && Possible(w, |data|)
      modifies this
      ensures Inv(View()) && View() == Apply(old(View()), Step.Send(data, w))
    {
      if state == Connected {
        SendInLoop(data, w);
      }
    }

    method ShutdownInLoop()
      modifies this`log
      ensures View() == DoShutdownInLoop(old(View()))
    {
      if !writing {
        log := log + [ShutdownWrite];
      }
    }

    /** Called in the loop thread. */
    method Shutdown()
      requires Inv(View())
      modifies this
      ensures Inv(View()) && View() == Apply(old(View()), Step.Shutdown)
    {
      ApplyKeeps(View(), Step.Shutdown);
      if state == Connected {
        state := Disconnecting;
        ShutdownInLoop();
      }
    }

    method HandleWrite(w: WriteResult)
      requires Inv(View()) && Possible(w, |outputBuffer|)
      modifies this
      ensures Inv(View()) && View() == Apply(old(View()), Step.HandleWrite(w))
    {
      hide Inv;
      HandleWriteKeeps(View(), w);
      if writing {
        var n := if w.Wrote? then w.n else 0;
        assert n == 0 ==> outputBuffer[n..] == outputBuffer;
        assert n == |outputBuffer| <==> outputBuffer[n..] == [];
        log := log + [Write(outputBuffer[..n])];
        if n > 0 {
          outputBuffer := outputBuffer[n..];
          if outputBuffer == [] {
            writing := false;
            queued := queued + [WriteComplete];
            if state == Disconnecting {
              ShutdownInLoop();
            }
          }
        }
      }
    }

    method ForceClose()
      requires Inv(View())
      modifies this
      ensures Inv(View()) && View() == Apply(old(View()), CallForceClose)
    {
      ApplyKeeps(View(), CallForceClose);
      if state == Connected || state == Disconnecting {
        state := Disconnecting;
        queued := queued + [Functor.ForceCloseInLoop];
      }
    }

    method HandleClose()
      requires Inv(View()) && OpenState(state)
      modifies this
      ensures Inv(View()) && View() == Apply(old(View()), Close)
    {
      ApplyKeeps(View(), Close);
      state := Disconnected;
      writing := false;
    }

    method ForceCloseInLoop()
      requires Inv(View())
      modifies this
      ensures Inv(View()) && View() == Apply(old(View()), Close)
    {
      if state == Connected || state == Disconnecting {
        HandleClose();
      }
    }
  }
}
