/** The simulation loop over a bounded window of kernels. */
module KernelWindow {
  import opened WindowSpec

  class KernelInfo {
    const uid: nat
    const stream: nat
    var launched: bool

    constructor (uid: nat, stream: nat)
      ensures this.uid == uid && this.stream == stream && !launched
    {
      this.uid, this.stream, launched := uid, stream, false;
    }
  }

  ghost function InfoOf(k: KernelInfo): Info
    reads k
  {
    Info(k.uid, k.stream, k.launched)
  }

  ghost function InfosOf(ks: seq<KernelInfo>): (r: seq<Info>)
    reads ks
    ensures |r| == |ks| && forall i | 0 <= i < |ks| :: r[i] == InfoOf(ks[i])
  {
    seq(|ks|, i requires 0 <= i < |ks| reads ks => InfoOf(ks[i]))
  }

  /** How the loop ended: all commands done, no kernel left to retire although commands
      were left, or the GPU's rounds used up. */
  datatype End = Finished | NoKernel | MoreRounds

  /** The window is empty and no kernel launch is left to read. */
  ghost predicate OnlyCopiesLeft(cmds: seq<Command>, s: State) {
    s.kernels == [] && forall i | s.next <= i < |cmds| :: cmds[i].Memcpy?
  }

  class Framework {
    const commandlist: seq<Command>
    const windowSize: nat
    var commandlistIndex: nat
    var busyStreams: seq<nat>
    var kernelsInfo: seq<KernelInfo>
    ghost var log: seq<Id>

    constructor (commandlist: seq<Command>, windowSize: nat)
      requires windowSize > 0
      ensures Valid() && Abstract() == Initial()
      ensures this.commandlist == commandlist && this.windowSize == windowSize
    {
      this.commandlist, this.windowSize := commandlist, windowSize;
      commandlistIndex, busyStreams, kernelsInfo, log := 0, [], [], [];
    }

    ghost predicate Valid()
      reads this
    {
      && commandlistIndex <= |commandlist| && windowSize > 0
      && forall i, j | 0 <= i < j < |kernelsInfo| :: kernelsInfo[i] != kernelsInfo[j]
    }

    ghost function Abstract(): State
      reads this, kernelsInfo
    {
      State(InfosOf(kernelsInfo), busyStreams, commandlistIndex, log)
    }

    method ParseCommand()
      requires Valid() && commandlistIndex < |commandlist|
      modifies this
      ensures Valid() && Abstract() == ParseOne(commandlist, old(Abstract()))
      ensures commandlistIndex == old(commandlistIndex) + 1
      ensures forall k | k in kernelsInfo :: k in old(kernelsInfo) || fresh(k)
    {
      ghost var s := Abstract();
      match commandlist[commandlistIndex]
      case Memcpy(_, _) =>
        commandlistIndex := commandlistIndex + 1;
      case Launch(x) =>
        var count := CountLaunches();
        var k := new KernelInfo(count + 1, x);
        kernelsInfo := kernelsInfo + [k];
        commandlistIndex := commandlistIndex + 1;
        assert InfosOf(kernelsInfo) == s.kernels + [Info(count + 1, x, false)];
    }

    /** The uid counter of the trace reader, recomputed from the commands read so far. */
    method CountLaunches() returns (count: nat)
      requires commandlistIndex <= |commandlist|
      ensures count == Launches(commandlist, commandlistIndex)
    {
      count := 0;
      for i := 0 to commandlistIndex
        invariant count == Launches(commandlist, i)
      {
        if commandlist[i].Launch? {
          count := count + 1;
        }
      }
    }

    /** Reads as many commands as the window has room for. */
    method ParseCommandlist()
      requires Valid()
      modifies this
      ensures Valid() && Abstract() == Parse(commandlist, windowSize, old(Abstract()))
      ensures forall k | k in kernelsInfo :: k in old(kernelsInfo) || fresh(k)
    {
      ghost var s := Abstract();
      while |kernelsInfo| < windowSize && commandlistIndex < |commandlist|
        invariant Valid() && s.next <= |commandlist|
        invariant Parse(commandlist, windowSize, Abstract()) == Parse(commandlist, windowSize, s)
        invariant forall k | k in kernelsInfo :: k in old(kernelsInfo) || fresh(k)
        decreases |commandlist| - commandlistIndex
      {
        ParseCommand();
      }
    }

    method StreamBusy(x: nat) returns (busy: bool)
      ensures busy == (x in busyStreams)
    {
      busy := false;
      for i := 0 to |busyStreams|
        invariant busy == (x in busyStreams[..i])
      {
        if busyStreams[i] == x {
          busy := true;
        }
      }
    }

    /** Offers one kernel of the window to the GPU. */
    method OfferKernel(accepts: nat -> bool, j: nat)
      requires Valid() && j < |kernelsInfo|
      modifies this`busyStreams, this`log, kernelsInfo
      ensures Valid() && Abstract() == LaunchOne(old(Abstract()), accepts, j)
    {
      var k := kernelsInfo[j];
      ghost var s := Abstract();
      var busy := StreamBusy(k.stream);
      if !busy && accepts(j) && !k.launched {
        k.launched := true;
        busyStreams := busyStreams + [k.stream];
        log := log + [Id(k.uid, k.stream)];
        assert InfosOf(kernelsInfo) == s.kernels[j := s.kernels[j].(launched := true)];
      }
    }

    /** Launches the kernels of the window whose stream is free, in window order. */
    method LaunchKernels(accepts: nat -> bool)
      requires Valid()
      modifies this`busyStreams, this`log, kernelsInfo
      ensures Valid() && Abstract() == LaunchFrom(old(Abstract()), accepts, 0)
    {
      ghost var s := Abstract();
      for j := 0 to |kernelsInfo|
        invariant Valid()
        invariant LaunchFrom(Abstract(), accepts, j) == LaunchFrom(s, accepts, 0)
      {
        OfferKernel(accepts, j);
      }
    }

    method FreeStream(x: nat)
      modifies this`busyStreams
      ensures busyStreams == Without(old(busyStreams), x)
    {
      ghost var b := busyStreams;
      for l := 0 to |busyStreams|
        invariant busyStreams == b && x !in b[..l]
      {
        if busyStreams[l] == x {
          WithoutAt(b, x, l);
          busyStreams := busyStreams[..l] + busyStreams[l+1..];
          return;
        }
      }
      WithoutNone(b, x);
    }

    method Remove(j: nat)
      requires Valid() && j < |kernelsInfo|
      modifies this`busyStreams, this`kernelsInfo
      ensures Valid() && kernelsInfo == old(kernelsInfo[..j] + kernelsInfo[j+1..])
      ensures busyStreams == Without(old(busyStreams), old(kernelsInfo[j].stream))
    {
      FreeStream(kernelsInfo[j].stream);
      kernelsInfo := kernelsInfo[..j] + kernelsInfo[j+1..];
    }

    /** Retires the finished kernel; the GPU is active and no limit was reached. */
    method RetireKernel(finished: nat)
      requires Valid()
      modifies this`busyStreams, this`kernelsInfo
      ensures Valid() && Abstract() == Cleanup(old(Abstract()), finished)
      ensures forall k | k in kernelsInfo :: k in old(kernelsInfo)
    {
      ghost var s := Abstract();
      var j := 0;
      while j < |kernelsInfo| && kernelsInfo[j].uid != finished
        invariant 0 <= j <= |kernelsInfo|
        invariant Find(s.kernels, finished, j) == Find(s.kernels, finished, 0)
      {
        j := j + 1;
      }
      if j < |kernelsInfo| {
        assert j == Find(s.kernels, finished, 0);
        hide Find, Without;
        Remove(j);
        assert InfosOf(kernelsInfo) == s.kernels[..j] + s.kernels[j+1..];
      }
    }

    method PlayRound(r: Round)
      requires Valid()
      modifies this, kernelsInfo
      ensures Valid() && Abstract() == Cleanup(LaunchFrom(old(Abstract()), r.accepts, 0), r.finished)
      ensures forall k | k in kernelsInfo :: k in old(kernelsInfo)
    {
      hide Abstract, Cleanup, LaunchFrom;
      LaunchKernels(r.accepts);
      RetireKernel(r.finished);
    }

    /** The main loop against the rounds the GPU plays. Every kernel launch command has
        been retired when the loop ends before the rounds do. */
    method SimulationLoop(rounds: seq<Round>, ghost states: seq<State>) returns (n: nat, end: End)
      requires Valid() && Abstract() == Initial() && IsRun(commandlist, windowSize, states, rounds)
      modifies this
      ensures Valid() && n <= |rounds|
      ensures end == MoreRounds ==> n == |rounds| && states[n].next <= |commandlist|
      ensures end == MoreRounds ==> Abstract() == Parse(commandlist, windowSize, states[n])
      ensures end == Finished ==> Abstract() == states[n] && commandlistIndex == |commandlist| && kernelsInfo == []
      ensures end == NoKernel ==> states[n].next < |commandlist| && OnlyCopiesLeft(commandlist, states[n])
      ensures end != MoreRounds ==> n == Launches(commandlist, |commandlist|)
      ensures end != MoreRounds ==> (end == NoKernel <==> CopiesLeftOver(commandlist, windowSize))
    {
      n := 0;
      hide LaunchFrom, Cleanup, Parse, Allowed;
      while commandlistIndex < |commandlist| || kernelsInfo != []
        invariant Valid() && n <= |rounds| && Abstract() == states[n]
        invariant forall k | k in kernelsInfo :: fresh(k)
        decreases |rounds| - n
      {
        ghost var s, known := Abstract(), kernelsInfo;
        ParseCommandlist();
        EmptyAfterParse(commandlist, windowSize, s);
        RunKeeps(commandlist, windowSize, states, rounds, n);
        if kernelsInfo == [] {
          LaunchesSame(commandlist, s.next, |commandlist|);
          LeftOverIff(commandlist, windowSize, states, rounds, n);
          return n, NoKernel;
        }
        if n == |rounds| {
          return n, MoreRounds;
        }
        assert IsStep(commandlist, windowSize, states[n], rounds[n], states[n+1]);
        forall i | 0 <= i < |kernelsInfo| ensures fresh(kernelsInfo[i]) {
          assert kernelsInfo[i] in kernelsInfo;
          assert kernelsInfo[i] in known ==> fresh(kernelsInfo[i]);
        }
        PlayRound(rounds[n]);
        n := n + 1;
      }
      RunKeeps(commandlist, windowSize, states, rounds, n);
      LeftOverIff(commandlist, windowSize, states, rounds, n);
      end := Finished;
    }
  }

  lemma {:induction false} LaunchesSame(cmds: seq<Command>, a: nat, b: nat)
    requires a <= b <= |cmds| && forall i | a <= i < b :: cmds[i].Memcpy?
    ensures Launches(cmds, a) == Launches(cmds, b)
  {
    if a < b { LaunchesSame(cmds, a, b - 1); }
  }

  lemma {:induction false} WithoutNone(xs: seq<nat>, x: nat)
    requires x !in xs
    ensures Without(xs, x) == xs
  {
    if xs != [] { WithoutNone(xs[1..], x); }
  }

  lemma {:induction false} WithoutAt(xs: seq<nat>, x: nat, l: nat)
    requires l < |xs| && xs[l] == x && x !in xs[..l]
    ensures Without(xs, x) == xs[..l] + xs[l+1..]
  {
    if l > 0 {
      assert xs[1..][..l-1] == xs[..l][1..];
      assert xs[0] == xs[..l][0];
      WithoutAt(xs[1..], x, l - 1);
    }
  }
}
