/**
 The table of targets and the retry loop as the object of src/network/NetworkManager.cpp, each method
 proved to do what the function of Sender says that it stands for.
 */
module SenderObject {
  import opened Frames
  import opened Sender

  class NetworkManager {
    const myRank: Rank
    const listenPort: Port
    var socks: map<int, Target>
    var wires: map<int, Bytes>
    var nextSock: nat
    ghost var machine: Net

    ghost predicate Valid()
      reads this
    {
      && Inv(machine)
      && machine.myRank == myRank && machine.listenPort == listenPort
      && machine.targets == socks && machine.wires == wires && machine.nextSock == nextSock
    }

    constructor (myRank: Rank, listenPort: Port)
      ensures Valid() && machine == Init(myRank, listenPort)
      ensures this.myRank == myRank && this.listenPort == listenPort && socks == map[] && wires == map[]
    {
      hide Inv, WiresOk, SocksOk;
      this.myRank, this.listenPort := myRank, listenPort;
      socks, wires, nextSock := map[], map[], 1;
      machine := Init(myRank, listenPort);
      new;
      InitKeeps(myRank, listenPort);
    }

    /** registerTarget: a known target keeps nothing of what it was. */
    method RegisterTarget(rank: int, ip: nat, port: Port)
      requires Valid()
      modifies this
      ensures Valid() && machine == Register(old(machine), rank, Htonl(ip), Htons(port))
      ensures socks == old(socks)[rank := Target(Htonl(ip), Htons(port), -1)] && unchanged(`wires, `nextSock)
    {
      TableKeeps(machine, rank, Htonl(ip), Htons(port));
      hide Inv, Htonl, Htons;
      machine := Register(machine, rank, Htonl(ip), Htons(port));
      socks := socks[rank := Target(Htonl(ip), Htons(port), -1)];
    }

    /** What a rank report enters into the table, for the connection it came in on; a known target stays. */
    method EnterReported(rank: int, ip: nat, port: nat)
      requires Valid()
      modifies this
      ensures Valid() && machine == Incoming(old(machine), rank, ip, port)
      ensures nextSock == old(nextSock) + 1 && unchanged(`wires)
      ensures socks == if rank in old(socks) then old(socks) else old(socks)[rank := Target(ip, port, old(nextSock))]
    {
      TableKeeps(machine, rank, ip, port);
      hide Inv;
      machine := Incoming(machine, rank, ip, port);
      if rank !in socks {
        socks := socks[rank := Target(ip, port, nextSock)];
      }
      nextSock := nextSock + 1;
    }

    method GetSendSocket(rank: int, luck: Luck) returns (sock: int)
      requires Valid()
      modifies this
      ensures Valid() && (machine, sock) == Sender.GetSendSocket(old(machine), rank, luck)
      ensures rank !in old(socks) ==> sock == -1 && unchanged(`socks, `wires, `nextSock)
      ensures rank in old(socks) && old(socks)[rank].sock > 0 ==>
                sock == old(socks)[rank].sock && unchanged(`socks, `wires, `nextSock)
      ensures rank in old(socks) && old(socks)[rank].sock <= 0 ==>
                if luck.socketOk && luck.connectOk && luck.reportWritten >= |ReportFrame(myRank, listenPort)| then
                  && sock == old(nextSock) && nextSock == sock + 1
                  && socks == old(socks)[rank := Target(old(socks)[rank].ip, old(socks)[rank].port, sock)]
                  && wires == old(wires)[sock := ReportFrame(myRank, listenPort)]
                else
                  && sock == -1 && unchanged(`socks, `wires)
                  && nextSock == old(nextSock) + if luck.socketOk then 1 else 0
    {
      OpenKeeps(machine, rank, luck);
      hide Inv, ReportFrame;
      machine := Sender.GetSendSocket(machine, rank, luck).0;
      if rank !in socks {
        return -1;
      }
      if socks[rank].sock > 0 {
        return socks[rank].sock;
      }
      if !luck.socketOk {
        return -1;
      }
      sock := nextSock;
      nextSock := nextSock + 1;
      if !luck.connectOk {
        return -1;
      }
      var report := ReportFrame(myRank, listenPort);
      if luck.reportWritten < |report| {
        return -1;
      }
      socks, wires := socks[rank := socks[rank].(sock := sock)], wires[sock := report];
    }

    method ClearSendSocket(rank: int)
      requires Valid()
      modifies this
      ensures Valid() && machine == Sender.ClearSendSocket(old(machine), rank)
      ensures rank in old(socks) ==>
                socks == old(socks)[rank := Target(old(socks)[rank].ip, old(socks)[rank].port, -1)]
      ensures rank !in old(socks) ==> socks == old(socks)
      ensures unchanged(`wires, `nextSock)
    {
      ClearKeeps(machine, rank);
      hide Inv;
      machine := Sender.ClearSendSocket(machine, rank);
      if rank in socks {
        socks := socks[rank := socks[rank].(sock := -1)];
      }
    }

    /** The loop stops within retry + 1 attempts. */
    method SendMessage(rank: int, payload: Bytes, retry: int, lucks: nat -> Luck) returns (threw: bool, attempts: nat)
      requires Valid()
      modifies this
      ensures Valid()
      ensures machine == Send(old(machine), rank, payload, retry, lucks, 0).0
      ensures threw == Send(old(machine), rank, payload, retry, lucks, 0).1.Threw?
      ensures retry < 0 ==> attempts == 0 && !threw
      ensures retry >= 0 ==> 0 < attempts <= retry + 1
      ensures retry >= 0 && attempts < retry + 1 ==> |machine.log| == |old(machine).log| + 1
      ensures retry >= 0 ==> (!threw <==> WroteAll(old(machine), machine, rank, payload))
    {
      hide Inv, Frame, ReportFrame, WroteAll, SameSelf;
      SendOnce(machine, rank, payload, retry, lucks, 0);
      ghost var whole := Send(machine, rank, payload, retry, lucks, 0);
      var left := retry;
      attempts, threw := 0, false;
      while left >= 0
        invariant Valid() && !threw && attempts == retry - left && machine.log == old(machine).log
        invariant if retry < 0 then left == retry else left >= 0
        invariant whole == Send(machine, rank, payload, left, lucks, attempts)
        decreases left
      {
        ghost var before := machine;
        AttemptKeeps(machine, rank, payload, lucks(attempts));
        var sock := GetSendSocket(rank, lucks(attempts));
        if sock < 0 {
          attempts, left := attempts + 1, left - 1;
          if left < 0 {
            threw := true;
            return;
          }
          continue;
        }
        var written := lucks(attempts).frameWritten;
        if written < 0 {
          ClearSendSocket(rank);
          attempts, left := attempts + 1, left - 1;
          if left < 0 {
            threw := true;
            return;
          }
          continue;
        }
        var all := Frame(payload);
        var put := Put(all, written);
        var earlier := if sock in wires then wires[sock] else [];
        wires := wires[sock := earlier + put];
        machine := Attempt(before, rank, payload, lucks(attempts)).0;
        attempts := attempts + 1;
        if written < |all| {
          threw := true;
        }
        return;
      }
    }
  }
}
