/** The two pollers as objects: each operation does to the poller's tables what `PollerTables` says. */
module Pollers {
  import opened PollerTables

  class Channel {
    const fd: Fd
    var events: Mask
    var revents: nat
    var index: int

    constructor (fd: Fd, events: Mask)
      ensures this.fd == fd && this.events == events && revents == 0 && index == NEW
    {
      this.fd, this.events, this.revents, this.index := fd, events, 0, NEW;
    }
  }

  // ---------- poll ----------

  /** The owners of the slots with events, in slot order. */
  function Ready<T>(owners: seq<T>, revents: seq<nat>): seq<T>
    requires |revents| == |owners|
  {
    if owners == [] then [] else
    Ready(owners[..|owners| - 1], revents[..|owners| - 1]) +
    (if revents[|owners| - 1] > 0 then [owners[|owners| - 1]] else [])
  }

  lemma ReadySnoc<T>(owners: seq<T>, revents: seq<nat>, i: nat)
    requires |revents| == |owners| && i < |owners|
    ensures Ready(owners[..i + 1], revents[..i + 1]) ==
              Ready(owners[..i], revents[..i]) + (if revents[i] > 0 then [owners[i]] else [])
  {
    assert owners[..i + 1][..i] == owners[..i] && revents[..i + 1][..i] == revents[..i];
  }

  lemma {:induction false} ReadyGrows<T>(owners: seq<T>, revents: seq<nat>, i: nat)
    requires |revents| == |owners| && i <= |owners|
    ensures Ready(owners[..i], revents[..i]) <= Ready(owners, revents)
    decreases |owners| - i
  {
    if i == |owners| {
      assert owners[..i] == owners && revents[..i] == revents;
    } else {
      ReadySnoc(owners, revents, i);
      ReadyGrows(owners, revents, i + 1);
    }
  }

  /** No slot past `i` has events once all those reported have been met. */
  lemma {:induction false} NoneLeft<T>(owners: seq<T>, revents: seq<nat>, i: nat)
    requires |revents| == |owners| && i <= |owners|
    requires |Ready(owners[..i], revents[..i])| == |Ready(owners, revents)|
    ensures Ready(owners[..i], revents[..i]) == Ready(owners, revents)
    ensures forall j | i <= j < |owners| :: revents[j] == 0
    decreases |owners| - i
  {
    if i < |owners| {
      ReadySnoc(owners, revents, i);
      ReadyGrows(owners, revents, i + 1);
      NoneLeft(owners, revents, i + 1);
    } else {
      assert owners[..i] == owners && revents[..i] == revents;
    }
  }

  lemma OneChanged<V>(before: map<Fd, V>, after: map<Fd, V>, fd: Fd, v: V)
    requires after.Keys == before.Keys + {fd} && after[fd] == v
    requires forall x | x in before && x != fd :: after[x] == before[x]
    ensures after == before[fd := v]
  {
  }

  lemma RemovalFacts(t: PollTable, fd: Fd)
    requires PollOk(t) && fd in t.index
    ensures t.index[fd] < |t.slots| && PollOk(PollRemove(t, fd))
    ensures var moved := Owner(t.slots[|t.slots| - 1]);
            moved in t.index && (moved == fd ==> t.index[fd] == |t.slots| - 1)
  {
    PollRemoveOk(t, fd);
  }

  class PollPoller {
    var pollfds: seq<PollFd>
    var channels: map<Fd, Channel>
    ghost var attached: set<Channel>

    ghost predicate Keyed()
      reads this, attached
    {
      forall fd | fd in channels :: channels[fd] in attached && channels[fd].fd == fd && channels[fd].index >= 0
    }

    ghost function View(): PollTable
      requires Keyed()
      reads this, attached
    {
      PollTable(pollfds, map fd | fd in channels :: channels[fd].index)
    }

    ghost predicate Valid()
      reads this, attached
    {
      Keyed() && PollOk(View())
    }

    constructor ()
      ensures Valid() && attached == {} && View() == PollTable([], map[])
    {
      pollfds, channels, attached := [], map[], {};
    }

    /** updateChannel of a channel the poller does not know. */
    method AddChannel(channel: Channel)
      requires Keyed() && channel.index < 0 && channel.fd !in channels
      modifies this, channel`index
      ensures Keyed() && channels == old(channels)[channel.fd := channel] && attached == old(attached) + {channel}
      ensures View() == PollUpdate(old(View()), channel.fd, channel.events)
    {
      ghost var before := View();
      pollfds := pollfds + [PollFd(channel.fd, channel.events)];
      channel.index := |pollfds| - 1;
      channels, attached := channels[channel.fd := channel], attached + {channel};
      OneChanged(before.index, View().index, channel.fd, channel.index);
    }

    /** updateChannel of a channel the poller knows. */
    method ChangeChannel(channel: Channel)
      requires Keyed() && channel.fd in channels && channels[channel.fd] == channel && channel.index < |pollfds|
      modifies this`pollfds
      ensures Keyed()
      ensures View() == PollUpdate(old(View()), channel.fd, channel.events)
    {
      var number: int := channel.fd;
      var pfd := PollFd(number, channel.events);
      if channel.events == 0 {
        pfd := pfd.(fd := -number - 1);
      }
      pollfds := pollfds[channel.index := pfd];
    }

    /** A channel unknown to the poller has a negative index; a known one is found under its descriptor. */
    method UpdateChannel(channel: Channel)
      requires Valid()
      requires if channel.index < 0 then channel.fd !in channels else channel.fd in channels && channels[channel.fd] == channel
      modifies this, channel`index
      ensures Valid() && channels == old(channels)[channel.fd := channel] && attached == old(attached) + {channel}
      ensures View() == PollUpdate(old(View()), channel.fd, channel.events)
    {
      PollUpdateOk(View(), channel.fd, channel.events);
      assert channel.index >= 0 ==> View().index[channel.fd] < |pollfds|;
      hide PollOk, Ignored, PollUpdate;
      if channel.index < 0 {
        AddChannel(channel);
      } else {
        ChangeChannel(channel);
        assert channels == old(channels)[channel.fd := channel] && attached == old(attached) + {channel};
      }
    }

    /** The last slot takes the place of slot `idx`, whose channel is gone from the map. */
    method MoveLast(idx: nat)
      requires Keyed() && idx < |pollfds| - 1 && Owner(pollfds[|pollfds| - 1]) in channels
      modifies this`pollfds, attached`index
      ensures Keyed() && pollfds == old(pollfds)[idx := old(pollfds)[|old(pollfds)| - 1]][..|old(pollfds)| - 1]
      ensures View().index == old(View()).index[Owner(old(pollfds)[|old(pollfds)| - 1]) := idx]
      ensures forall c | c in attached && c != channels[Owner(old(pollfds)[|old(pollfds)| - 1])] :: c.index == old(c.index)
    {
      ghost var before := View();
      var last := |pollfds| - 1;
      var channelAtEnd := pollfds[last].fd;
      pollfds := pollfds[idx := pollfds[last]][last := pollfds[idx]];
      if channelAtEnd < 0 {
        channelAtEnd := -channelAtEnd - 1;
      }
      channels[channelAtEnd].index := idx;
      pollfds := pollfds[..last];
      OneChanged(before.index, View().index, channelAtEnd, idx);
    }

    /** The channel leaves the map; its slot stays. */
    method Erase(channel: Channel)
      requires Keyed() && channel.fd in channels && channels[channel.fd] == channel
      modifies this`channels, this`attached
      ensures Keyed() && channels == old(channels) - {channel.fd} && attached == old(attached) - {channel}
      ensures View() == old(View()).(index := old(View()).index - {channel.fd})
    {
      ghost var before := View();
      channels, attached := channels - {channel.fd}, attached - {channel};
      assert View().index == before.index - {channel.fd};
    }

    /** The channel keeps its index: it cannot be given to the poller again. */
    method RemoveChannel(channel: Channel)
      requires Valid() && channel.fd in channels && channels[channel.fd] == channel
      requires channel.events == 0 && Ignored(View(), channel.fd)
      modifies this, attached`index
      ensures Valid() && channels == old(channels) - {channel.fd} && attached == old(attached) - {channel}
      ensures View() == PollRemove(old(View()), channel.fd)
      ensures channel.index == old(channel.index)
    {
      hide PollOk, Ignored;
      ghost var before := View();
      var idx, last := channel.index, |pollfds| - 1;
      RemovalFacts(before, channel.fd);
      Erase(channel);
      if idx == last {
        pollfds := pollfds[..last];
      } else {
        MoveLast(idx);
      }
      assert View() == PollRemove(before, channel.fd);
    }

    /** The channels in the order of their slots. */
    ghost function Owners(): (owners: seq<Channel>)
      requires Valid()
      reads this, attached
      ensures |owners| == |pollfds|
      ensures forall i | 0 <= i < |owners| ::
                owners[i] in attached && owners[i].fd == Owner(pollfds[i]) && owners[i].index == i
      ensures forall i | 0 <= i < |owners| :: owners[i].fd in channels && channels[owners[i].fd] == owners[i]
    {
      assert forall i | 0 <= i < |pollfds| :: Owner(pollfds[i]) in View().index;
      seq(|pollfds|, i requires 0 <= i < |pollfds| && Owner(pollfds[i]) in channels reads this => channels[Owner(pollfds[i])])
    }

    /** The loop of fillActiveChannels; `owners` are the channels in slot order. */
    method Scan(numEvents: nat, revents: seq<nat>, ghost owners: seq<Channel>) returns (active: seq<Channel>)
      requires |revents| == |owners| == |pollfds| && numEvents == |Ready(owners, revents)|
      requires forall i | 0 <= i < |owners| :: owners[i] in attached && owners[i].index == i
      requires forall i | 0 <= i < |owners| && revents[i] > 0 :: pollfds[i].fd in channels && channels[pollfds[i].fd] == owners[i]
      modifies attached`revents
      ensures active == Ready(owners, revents)
      ensures forall i | 0 <= i < |owners| ::
                owners[i].revents == if revents[i] > 0 then revents[i] else old(owners[i].revents)
    {
      active := [];
      var left, i := numEvents, 0;
      assert Ready(owners[..i], revents[..i]) == [];
      hide Ready;
      while i < |pollfds| && left > 0
        invariant 0 <= i <= |pollfds| && 0 <= left && left + |active| == numEvents
        invariant active == Ready(owners[..i], revents[..i])
        invariant forall j | 0 <= j < |owners| ::
                    owners[j].revents == if j < i && revents[j] > 0 then revents[j] else old(owners[j].revents)
      {
        ReadySnoc(owners, revents, i);
        if revents[i] > 0 {
          left := left - 1;
          var channel := channels[pollfds[i].fd];
          channel.revents := revents[i];
          active := active + [channel];
        }
        i := i + 1;
      }
      assert i == |pollfds| ==> owners[..i] == owners && revents[..i] == revents;
      NoneLeft(owners, revents, i);
    }

    /** `revents` is what poll(2) filled in: nothing for ignored slots; `numEvents` slots have events. */
    method FillActiveChannels(numEvents: nat, revents: seq<nat>) returns (active: seq<Channel>)
      requires Valid() && |revents| == |pollfds|
      requires forall i | 0 <= i < |pollfds| :: revents[i] > 0 ==> pollfds[i].fd >= 0
      requires numEvents == |Ready(Owners(), revents)|
      modifies attached`revents
      ensures active == Ready(old(Owners()), revents)
      ensures forall i | 0 <= i < |pollfds| ::
                old(Owners())[i].revents == if revents[i] > 0 then revents[i] else old(Owners()[i].revents)
    {
      hide Valid, Owners, Ready;
      active := Scan(numEvents, revents, Owners());
    }
  }

  // ---------- epoll ----------

  const NEW := -1
  const ADDED := 1
  const DELETED := 2

  function MarkOf(index: int): Mark {
    if index == ADDED then Added else Deleted
  }

  class EPollPoller {
    var channels: map<Fd, Channel>
    ghost var attached: set<Channel>
    var kernel: map<Fd, Mask>

    ghost predicate Keyed()
      reads this, attached
    {
      forall fd | fd in channels :: channels[fd] in attached && channels[fd].fd == fd && (channels[fd].index == ADDED || channels[fd].index == DELETED)
    }

    ghost function View(): EpollTable
      requires Keyed()
      reads this, attached
    {
      EpollTable(map fd | fd in channels :: MarkOf(channels[fd].index), kernel)
    }

    ghost predicate Valid()
      reads this, attached
    {
      Keyed() && EpollOk(View())
    }

    constructor ()
      ensures Valid() && attached == {} && View() == EpollTable(map[], map[])
    {
      channels, kernel, attached := map[], map[], {};
    }

    /** Asks of every caller that the kernel accepts the operation. */
    method Update(op: Operation, channel: Channel)
      requires Accepts(kernel, op, channel.fd)
      modifies this`kernel
      ensures kernel == Control(old(kernel), op, channel.fd, channel.events)
    {
      if op.Del? {
        kernel := kernel - {channel.fd};
      } else {
        kernel := kernel[channel.fd := channel.events];
      }
    }

    /** updateChannel of a channel the kernel does not watch. */
    method AddChannel(channel: Channel)
      requires Keyed() && channel.fd !in kernel && (channel.index == NEW || channel.index == DELETED)
      requires if channel.index == NEW then channel.fd !in channels else channel.fd in channels && channels[channel.fd] == channel
      modifies this, channel`index
      ensures Keyed() && channels == old(channels)[channel.fd := channel] && attached == old(attached) + {channel}
      ensures View() == EpollTable(old(View()).marks[channel.fd := Added], old(kernel)[channel.fd := channel.events])
    {
      ghost var before := View();
      if channel.index == NEW {
        channels, attached := channels[channel.fd := channel], attached + {channel};
      }
      channel.index := ADDED;
      Update(Add, channel);
      assert channels == old(channels)[channel.fd := channel] && attached == old(attached) + {channel};
      OneChanged(before.marks, View().marks, channel.fd, Added);
    }

    /** updateChannel of one it watches. */
    method ChangeChannel(channel: Channel)
      requires Keyed() && channel.fd in kernel && channel.index == ADDED
      requires channel.fd in channels && channels[channel.fd] == channel
      modifies this`kernel, channel`index
      ensures Keyed()
      ensures View() == EpollTable(old(View()).marks[channel.fd := if channel.events == 0 then Deleted else Added],
                                   Control(old(kernel), if channel.events == 0 then Del else Mod, channel.fd, channel.events))
    {
      ghost var before := View();
      if channel.events == 0 {
        Update(Del, channel);
        channel.index := DELETED;
      } else {
        Update(Mod, channel);
      }
      OneChanged(before.marks, View().marks, channel.fd, MarkOf(channel.index));
    }

    method UpdateChannel(channel: Channel)
      requires Valid()
      requires if channel.index == NEW then channel.fd !in channels else channel.fd in channels && channels[channel.fd] == channel
      modifies this, channel`index
      ensures Valid() && channels == old(channels)[channel.fd := channel] && attached == old(attached) + {channel}
      ensures View() == EpollUpdate(old(View()), channel.fd, channel.events)
    {
      ghost var before := View();
      EpollUpdateOk(before, channel.fd, channel.events);
      assert channel.fd in kernel <==> channel.fd in channels && channel.index == ADDED;
      hide EpollOk, EpollInterest;
      if channel.index == NEW || channel.index == DELETED {
        AddChannel(channel);
      } else {
        ChangeChannel(channel);
        assert channels == old(channels)[channel.fd := channel] && attached == old(attached) + {channel};
      }
      assert View() == EpollUpdate(before, channel.fd, channel.events);
    }

    method RemoveChannel(channel: Channel)
      requires Valid() && channel.fd in channels && channels[channel.fd] == channel && channel.events == 0
      requires channel.fd !in EpollInterest(View())
      modifies this, channel`index
      ensures Valid() && channel.index == NEW && channels == old(channels) - {channel.fd} && attached == old(attached) - {channel}
      ensures View() == EpollRemove(old(View()), channel.fd)
    {
      EpollRemoveOk(View(), channel.fd);
      hide EpollOk, EpollInterest;
      var index := channel.index;
      channels, attached := channels - {channel.fd}, attached - {channel};
      if index == ADDED {
        Update(Del, channel);
      }
      channel.index := NEW;
      assert View().marks == EpollRemove(old(View()), channel.fd).marks;
    }
  }
}
