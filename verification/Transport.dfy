/**
 The transport loops that fragment and reassemble bytes: server/serverdatastream.cpp over a QIODevice,
 and client/socket.cpp with client/socketstream.cpp over a file descriptor.
 */
module Transport {
  import opened Bytes

  const CHUNK := 1024
  const FAILED := -1
  const INTERRUPTED := -2

  function Min(a: int, b: int): int {
    if a < b then a else b
  }

  // No call fails; for the client, none moves zero bytes either, which it takes for the end of the stream.
  ghost predicate Unfailing(script: seq<int>) {
    forall i | 0 <= i < |script| :: script[i] >= 0
  }

  ghost predicate Steady(script: seq<int>) {
    forall i | 0 <= i < |script| :: script[i] > 0 || script[i] == INTERRUPTED
  }

  /**
   A device that moves bytes in pieces.  The scripts fix what each call does: a limit on the bytes moved, which
   may be zero, or a failure or an interruption; and whether waiting for data succeeds.  When a script is used
   up every call moves all it can.  Every script is allowed, so every fragmentation is.
   */
  class Device {
    var incoming: seq<byte>
    var sent: seq<byte>
    var readScript: seq<int>
    var writeScript: seq<int>
    var waitScript: seq<bool>

    method Read(max: nat) returns (r: int, data: seq<byte>)
      modifies this`incoming, this`readScript
      ensures r < 0 ==> data == [] && incoming == old(incoming) && old(readScript) != [] && r == old(readScript)[0]
      ensures r >= 0 ==> r == |data| <= max && old(incoming) == data + incoming
      ensures r == 0 && max > 0 ==> if old(readScript) == [] then incoming == []
                                    else old(readScript)[0] == 0 || incoming == []
      ensures readScript == if old(readScript) == [] then [] else old(readScript)[1..]
    {
      var limit := max;
      if readScript != [] {
        var first := readScript[0];
        readScript := readScript[1..];
        if first < 0 { return first, []; }
        limit := Min(max, first);
      }
      r := Min(limit, |incoming|);
      data := incoming[..r];
      incoming := incoming[r..];
    }

    // False if no data will arrive in time; never true at the end of the stream.
    method WaitForReadyRead() returns (ready: bool)
      modifies this`waitScript
      ensures ready ==> incoming != []
      ensures false !in old(waitScript) ==> ready == (incoming != []) && false !in waitScript
    {
      ready := incoming != [];
      if waitScript != [] {
        ready := ready && waitScript[0];
        waitScript := waitScript[1..];
      }
    }

    method Write(data: seq<byte>) returns (r: int)
      modifies this`sent, this`writeScript
      ensures r < 0 ==> sent == old(sent) && old(writeScript) != [] && r == old(writeScript)[0]
      ensures r >= 0 ==> r <= |data| && sent == old(sent) + data[..r]
      ensures r == 0 && data != [] ==> old(writeScript) != [] && old(writeScript)[0] == 0
      ensures writeScript == if old(writeScript) == [] then [] else old(writeScript)[1..]
    {
      r := |data|;
      if writeScript != [] {
        var first := writeScript[0];
        writeScript := writeScript[1..];
        if first < 0 { return first; }
        r := Min(r, first);
      }
      sent := sent + data[..r];
    }
  }

  /** The bytes gone from a stream are a prefix of it. */
  ghost predicate Consumed(before: seq<byte>, taken: seq<byte>, after: seq<byte>) {
    before == taken + after
  }

  // ----- Server::DataStream -----

  /**
   On success exactly the next size bytes, in order, and nothing more is consumed.  Without failures and
   timeouts it succeeds exactly when there are enough bytes, and drains the stream when there are not.
   */
  method ServerRead(dev: Device, size: nat) returns (ok: bool, data: seq<byte>)
    modifies dev`incoming, dev`readScript, dev`waitScript
    ensures Consumed(old(dev.incoming), data, dev.incoming)
    ensures ok ==> Take(old(dev.incoming), size) == Got(data, dev.incoming)
    ensures Unfailing(old(dev.readScript)) && false !in old(dev.waitScript) ==>
              Delivers(old(dev.incoming), size, ok, data, dev.incoming)
  {
    var cnt := 0;
    data := [];
    ghost var calm := Unfailing(dev.readScript) && false !in dev.waitScript;
    while cnt < size
      invariant cnt == |data| <= size
      invariant Consumed(old(dev.incoming), data, dev.incoming)
      invariant calm ==> Unfailing(dev.readScript) && false !in dev.waitScript
      decreases |dev.readScript|, size - cnt
    {
      var m := Min(size - cnt, CHUNK);
      var r, chunk := dev.Read(m);
      if r < 0 {
        return false, data;
      } else if r == 0 && size > 0 {
        var ready := dev.WaitForReadyRead();
        if !ready {
          assert chunk == [];
          return false, data;
        }
      }
      assert (data + chunk) + dev.incoming == data + (chunk + dev.incoming);
      data := data + chunk;
      cnt := cnt + r;
    }
    return true, data;
  }

  /**
   On success exactly the bytes of data, in order; otherwise a prefix of them.  Without failures it succeeds.
   The count is a 32-bit variable, which suffices for every byte array the codec writes.
   */
  method ServerWrite(dev: Device, data: Blob) returns (ok: bool)
    modifies dev`sent, dev`writeScript
    ensures ok ==> dev.sent == old(dev.sent) + data
    ensures exists n :: 0 <= n <= |data| && dev.sent == old(dev.sent) + data[..n]
    ensures Unfailing(old(dev.writeScript)) ==> ok
  {
    var cnt: uint32 := 0;
    assert old(dev.sent) + data[..0] == dev.sent;
    while cnt < |data|
      invariant cnt <= |data|
      invariant dev.sent == old(dev.sent) + data[..cnt]
      invariant Unfailing(old(dev.writeScript)) ==> Unfailing(dev.writeScript)
      decreases |dev.writeScript|, |data| - cnt
    {
      var x := Min(CHUNK, |data| - cnt);
      var r := dev.Write(data[cnt..cnt + x]);
      if r < 0 { return false; }
      assert data[cnt..cnt + x][..r] == data[cnt..cnt + r];
      assert data[..cnt + r] == data[..cnt] + data[cnt..cnt + r];
      cnt := (cnt + r) % 0x1_0000_0000;
    }
    assert data[..cnt] == data;
    return true;
  }

  // ----- Socket and SocketStream -----

  /** The socket keeps its last error until it is opened again. */
  class Socket {
    const device: Device
    var failed: bool

    constructor (device: Device)
      ensures this.device == device && !failed
    {
      this.device, failed := device, false;
    }

    method Read(size: nat) returns (total: int, data: seq<byte>)
      modifies this, device`incoming, device`readScript
      ensures Consumed(old(device.incoming), data, device.incoming)
      ensures failed == (old(failed) || |data| < size)
      ensures |data| <= size && (total == |data| || total == FAILED)
      ensures Steady(old(device.readScript)) ==>
                |data| == Min(size, |old(device.incoming)|)
    {
      total, data := 0, [];
      var left := size;
      ghost var calm := Steady(device.readScript);
      while left > 0
        invariant total == |data| <= size && left == size - total
        invariant Consumed(old(device.incoming), data, device.incoming)
        invariant failed == old(failed)
        invariant calm ==> Steady(device.readScript)
        decreases |device.readScript|, left
      {
        var bytesRead, chunk := device.Read(left);
        if bytesRead < 0 {
          if bytesRead == INTERRUPTED { continue; }
          failed := true;
          return FAILED, data;
        } else if bytesRead == 0 {
          assert chunk == [];
          failed := true;
          break;
        }
        assert (data + chunk) + device.incoming == data + (chunk + device.incoming);
        data := data + chunk;
        total, left := total + bytesRead, left - bytesRead;
      }
    }

    method Write(buffer: seq<byte>) returns (total: int)
      modifies this, device`sent, device`writeScript
      ensures exists n :: 0 <= n <= |buffer| && device.sent == old(device.sent) + buffer[..n] &&
                          failed == (old(failed) || n < |buffer|)
      ensures Steady(old(device.writeScript)) ==>
                device.sent == old(device.sent) + buffer && failed == old(failed)
    {
      total := 0;
      var left := |buffer|;
      ghost var calm := Steady(device.writeScript);
      assert old(device.sent) + buffer[..0] == device.sent;
      while left > 0
        invariant 0 <= total <= |buffer| && left == |buffer| - total
        invariant device.sent == old(device.sent) + buffer[..total]
        invariant failed == old(failed)
        invariant calm ==> Steady(device.writeScript)
        decreases |device.writeScript|, left
      {
        ghost var before := total;
        var written := device.Write(buffer[total..]);
        if written < 0 {
          if written == INTERRUPTED { continue; }
          failed := true;
          assert 0 <= before <= |buffer| && device.sent == old(device.sent) + buffer[..before];
          return FAILED;
        } else if written == 0 {
          failed := true;
          assert device.sent == old(device.sent) + buffer[..before];
          return total;
        }
        assert buffer[total..][..written] == buffer[total..total + written];
        assert buffer[..total + written] == buffer[..total] + buffer[total..total + written];
        total, left := total + written, left - written;
      }
      assert buffer[..total] == buffer;
    }
  }

  /** SocketStream::read judges by the socket's last error alone, which is enough on a socket without one. */
  method ClientRead(socket: Socket, size: nat) returns (ok: bool, data: seq<byte>)
    modifies socket, socket.device`incoming, socket.device`readScript
    ensures Consumed(old(socket.device.incoming), data, socket.device.incoming)
    ensures ok ==> Take(old(socket.device.incoming), size) == Got(data, socket.device.incoming)
    ensures !old(socket.failed) && Steady(old(socket.device.readScript)) ==>
              Delivers(old(socket.device.incoming), size, ok, data, socket.device.incoming)
    ensures ok && size > 0 ==> !socket.failed
  {
    if size <= 0 { return true, []; }
    var total;
    total, data := socket.Read(size);
    ok := !socket.failed;
  }

  method ClientWrite(socket: Socket, data: seq<byte>) returns (ok: bool)
    modifies socket, socket.device`sent, socket.device`writeScript
    ensures ok ==> socket.device.sent == old(socket.device.sent) + data
    ensures !old(socket.failed) && Steady(old(socket.device.writeScript)) ==> ok
  {
    if |data| <= 0 { return true; }
    var total := socket.Write(data);
    ok := !socket.failed;
    assert ok ==> data[..|data|] == data;
  }
}
