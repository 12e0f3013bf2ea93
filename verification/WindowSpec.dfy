/** What the kernel window does in one round, as functions on its state, and what every
    round and every run keeps. The simulated GPU is an oracle. */
module WindowSpec {

  datatype Command = Memcpy(address: nat, count: nat) | Launch(stream: nat)

  datatype Id = Id(uid: nat, stream: nat)

  datatype Info = Info(uid: nat, stream: nat, launched: bool)

  /** The kernels in the window, the streams with a running kernel, the next command, and
      every kernel launched so far in launch order. */
  datatype State = State(kernels: seq<Info>, busy: seq<nat>, next: nat, log: seq<Id>)

  /** One round of the GPU: whether it would accept the kernel at a window position, and
      the kernel it reports as finished. */
  datatype Round = Round(accepts: nat -> bool, finished: nat)

  // ---- one round ----

  /** Kernel launches among the first k commands; also the last uid handed out. */
  function Launches(cmds: seq<Command>, k: nat): nat
    requires k <= |cmds|
  {
    if k == 0 then 0 else Launches(cmds, k - 1) + if cmds[k-1].Launch? then 1 else 0
  }

  /** Reads commands until the window is full or all are read. */
  function Parse(cmds: seq<Command>, w: nat, s: State): (t: State)
    requires s.next <= |cmds|
    ensures s.next <= t.next <= |cmds|
    decreases |cmds| - s.next
  {
    if |s.kernels| < w && s.next < |cmds| then Parse(cmds, w, ParseOne(cmds, s)) else s
  }

  function ParseOne(cmds: seq<Command>, s: State): State
    requires s.next < |cmds|
  {
    match cmds[s.next]
    case Memcpy(_, _) => s.(next := s.next + 1)
    case Launch(x) => s.(next := s.next + 1, kernels := s.kernels + [Info(Launches(cmds, s.next) + 1, x, false)])
  }

  /** Offers the kernels from position j on, in window order. */
  function LaunchFrom(s: State, accepts: nat -> bool, j: nat): State
    requires j <= |s.kernels|
    decreases |s.kernels| - j
  {
    if j == |s.kernels| then s else LaunchFrom(LaunchOne(s, accepts, j), accepts, j + 1)
  }

  function LaunchOne(s: State, accepts: nat -> bool, j: nat): State
    requires j < |s.kernels|
  {
    var k := s.kernels[j];
    if k.stream !in s.busy && accepts(j) && !k.launched
    then s.(kernels := s.kernels[j := k.(launched := true)], busy := s.busy + [k.stream], log := s.log + [Id(k.uid, k.stream)])
    else s
  }

  /** The first position from j on of a kernel with this uid; the window size if there is none. */
  function Find(ks: seq<Info>, uid: nat, j: nat): (i: nat)
    requires j <= |ks|
    ensures j <= i <= |ks| && (i < |ks| ==> ks[i].uid == uid) && forall h | j <= h < i :: ks[h].uid != uid
    decreases |ks| - j
  {
    if j == |ks| || ks[j].uid == uid then j else Find(ks, uid, j + 1)
  }

  /** The list without the first occurrence of x. */
  function Without(xs: seq<nat>, x: nat): (r: seq<nat>)
  {
    if xs == [] then [] else if xs[0] == x then xs[1..] else [xs[0]] + Without(xs[1..], x)
  }

  /** Takes a finished kernel out of the window and frees its stream. */
  function Cleanup(s: State, uid: nat): State {
    var j := Find(s.kernels, uid, 0);
    if j == |s.kernels| then s
    else s.(kernels := s.kernels[..j] + s.kernels[j+1..], busy := Without(s.busy, s.kernels[j].stream))
  }

  function Launched(cmds: seq<Command>, w: nat, s: State, r: Round): State
    requires s.next <= |cmds|
  {
    LaunchFrom(Parse(cmds, w, s), r.accepts, 0)
  }

  function Step(cmds: seq<Command>, w: nat, s: State, r: Round): State
    requires s.next <= |cmds|
  {
    Cleanup(Launched(cmds, w, s, r), r.finished)
  }

  // ---- the invariant ----

  /** The kernels of a stream in a list, in order. */
  function Of(ids: seq<Id>, x: nat): seq<Id> {
    if ids == [] then []
    else Of(ids[..|ids|-1], x) + if ids[|ids|-1].stream == x then [ids[|ids|-1]] else []
  }

  /** The kernels of a stream waiting in the window, in order. */
  function WaitingOf(ks: seq<Info>, x: nat): seq<Id> {
    if ks == [] then []
    else
      var k := ks[|ks|-1];
      WaitingOf(ks[..|ks|-1], x) + if k.stream == x && !k.launched then [Id(k.uid, k.stream)] else []
  }

  /** The kernels of the first k commands, in command order. */
  function Parsed(cmds: seq<Command>, k: nat): seq<Id>
    requires k <= |cmds|
  {
    if k == 0 then []
    else Parsed(cmds, k - 1) + if cmds[k-1].Launch? then [Id(Launches(cmds, k - 1) + 1, cmds[k-1].stream)] else []
  }

  ghost predicate NoDuplicates(xs: seq<nat>) {
    forall i, j | 0 <= i < j < |xs| :: xs[i] != xs[j]
  }

  /** A stream is busy exactly when a launched kernel of the window is on it. */
  ghost predicate BusyIsLaunched(ks: seq<Info>, busy: seq<nat>) {
    && NoDuplicates(busy)
    && (forall i | 0 <= i < |ks| && ks[i].launched :: ks[i].stream in busy)
    && (forall x | x in busy :: exists i :: 0 <= i < |ks| && ks[i].launched && ks[i].stream == x)
  }

  /** Only the first kernel of a stream in the window can be running. */
  ghost predicate FirstOfStream(ks: seq<Info>) {
    forall i, j | 0 <= i < j < |ks| && ks[i].stream == ks[j].stream :: !ks[j].launched
  }

  ghost predicate UidsRise(ks: seq<Info>, last: nat) {
    && (forall i, j | 0 <= i < j < |ks| :: ks[i].uid < ks[j].uid)
    && (forall i | 0 <= i < |ks| :: 0 < ks[i].uid <= last)
  }

  /** Per stream: what was launched, then what waits, is what was read from the commands. */
  ghost predicate InOrder(cmds: seq<Command>, s: State)
    requires s.next <= |cmds|
  {
    forall x :: Of(s.log, x) + WaitingOf(s.kernels, x) == Of(Parsed(cmds, s.next), x)
  }

  ghost predicate Inv(cmds: seq<Command>, w: nat, s: State) {
    && s.next <= |cmds| && |s.kernels| <= w
    && BusyIsLaunched(s.kernels, s.busy) && FirstOfStream(s.kernels)
    && UidsRise(s.kernels, Launches(cmds, s.next)) && InOrder(cmds, s)
  }

  function Initial(): State {
    State([], [], 0, [])
  }

  lemma {:induction false} InitialInv(cmds: seq<Command>, w: nat)
    ensures Inv(cmds, w, Initial())
  {
  }

  // ---- reading commands ----

  lemma {:induction false} OfAppend(ids: seq<Id>, id: Id, x: nat)
    ensures Of(ids + [id], x) == Of(ids, x) + if id.stream == x then [id] else []
  {
    assert (ids + [id])[..|ids|] == ids;
  }

  lemma {:induction false} WaitingAppend(ks: seq<Info>, k: Info, x: nat)
    ensures WaitingOf(ks + [k], x) == WaitingOf(ks, x) + if k.stream == x && !k.launched then [Id(k.uid, k.stream)] else []
  {
    assert (ks + [k])[..|ks|] == ks;
  }

  lemma {:induction false} BusyAppend(ks: seq<Info>, busy: seq<nat>, k: Info)
    requires BusyIsLaunched(ks, busy) && !k.launched
    ensures BusyIsLaunched(ks + [k], busy)
  {
    var ls := ks + [k];
    assert forall i | 0 <= i < |ks| :: ls[i] == ks[i];
    forall x | x in busy ensures exists i :: 0 <= i < |ls| && ls[i].launched && ls[i].stream == x {
      var i :| 0 <= i < |ks| && ks[i].launched && ks[i].stream == x;
      assert ls[i].launched;
    }
  }

  lemma {:induction false} ParseOneOrder(cmds: seq<Command>, s: State, x: nat)
    requires s.next < |cmds| && InOrder(cmds, s)
    ensures var t := ParseOne(cmds, s); Of(t.log, x) + WaitingOf(t.kernels, x) == Of(Parsed(cmds, t.next), x)
  {
    hide Of, WaitingOf, Launches, Parsed;
    assert Of(s.log, x) + WaitingOf(s.kernels, x) == Of(Parsed(cmds, s.next), x);
    ParsedNext(cmds, s.next);
    hide InOrder;
    if cmds[s.next].Launch? {
      var id := Id(Launches(cmds, s.next) + 1, cmds[s.next].stream);
      WaitingAppend(s.kernels, Info(id.uid, id.stream, false), x);
      OfAppend(Parsed(cmds, s.next), id, x);
      SplitSame(Of(s.log, x), WaitingOf(s.kernels, x), Of(Parsed(cmds, s.next), x), if id.stream == x then [id] else []);
    } else {
      assert Parsed(cmds, s.next) + [] == Parsed(cmds, s.next);
    }
  }

  lemma {:induction false} SplitSame(a: seq<Id>, b: seq<Id>, c: seq<Id>, d: seq<Id>)
    requires a + b == c
    ensures a + (b + d) == c + d
  {
    assert a + (b + d) == a + b + d;
  }

  lemma {:induction false} ParsedNext(cmds: seq<Command>, k: nat)
    requires k < |cmds|
    ensures Parsed(cmds, k + 1) == Parsed(cmds, k) + if cmds[k].Launch? then [Id(Launches(cmds, k) + 1, cmds[k].stream)] else []
  {
  }

  lemma {:induction false} ParseOneKeeps(cmds: seq<Command>, w: nat, s: State)
    requires Inv(cmds, w, s) && |s.kernels| < w && s.next < |cmds|
    ensures Inv(cmds, w, ParseOne(cmds, s))
  {
    var t := ParseOne(cmds, s);
    forall x ensures Of(t.log, x) + WaitingOf(t.kernels, x) == Of(Parsed(cmds, t.next), x) {
      ParseOneOrder(cmds, s, x);
    }
    if cmds[s.next].Launch? {
      hide InOrder, Of, WaitingOf, Parsed;
      BusyAppend(s.kernels, s.busy, t.kernels[|s.kernels|]);
    }
  }

  /** Reading keeps the invariant; it stops with a full window or no commands left. */
  lemma {:induction false} ParseKeeps(cmds: seq<Command>, w: nat, s: State)
    requires Inv(cmds, w, s)
    ensures var t := Parse(cmds, w, s); Inv(cmds, w, t) && (|t.kernels| == w || t.next == |cmds|)
    ensures var t := Parse(cmds, w, s); t.log == s.log && t.busy == s.busy
    decreases |cmds| - s.next
  {
    hide BusyIsLaunched, FirstOfStream, UidsRise, InOrder;
    if |s.kernels| < w && s.next < |cmds| {
      ParseOneKeeps(cmds, w, s);
      ParseKeeps(cmds, w, ParseOne(cmds, s));
    }
  }

  // ---- launching ----

  /** Once the GPU refuses a kernel in a pass, it refuses the later ones too. */
  ghost predicate Falling(accepts: nat -> bool, n: nat) {
    forall i: nat, j: nat | i < j < n && !accepts(i) :: !accepts(j)
  }

  /** Every kernel before position j runs on a busy stream or was refused. */
  ghost predicate Offered(s: State, accepts: nat -> bool, j: nat) {
    forall i | 0 <= i < j && i < |s.kernels| :: s.kernels[i].stream in s.busy || !accepts(i)
  }

  lemma {:induction false} WaitingConcat(a: seq<Info>, b: seq<Info>, x: nat)
    ensures WaitingOf(a + b, x) == WaitingOf(a, x) + WaitingOf(b, x)
  {
    if b == [] {
      assert a + b == a;
    } else {
      assert (a + b)[..|a + b| - 1] == a + b[..|b|-1];
      WaitingConcat(a, b[..|b|-1], x);
    }
  }

  lemma {:induction false} NoneWaiting(ks: seq<Info>, x: nat)
    requires forall i | 0 <= i < |ks| :: ks[i].stream != x || ks[i].launched
    ensures WaitingOf(ks, x) == []
  {
    if ks != [] { NoneWaiting(ks[..|ks|-1], x); }
  }

  lemma {:induction false} WaitingAt(ks: seq<Info>, j: nat, x: nat)
    requires j < |ks|
    ensures WaitingOf(ks, x) == WaitingOf(ks[..j], x) + WaitingOf([ks[j]], x) + WaitingOf(ks[j+1..], x)
  {
    assert ks == ks[..j] + [ks[j]] + ks[j+1..];
    WaitingConcat(ks[..j] + [ks[j]], ks[j+1..], x);
    WaitingConcat(ks[..j], [ks[j]], x);
  }

  lemma {:induction false} WaitingOne(k: Info, x: nat)
    ensures WaitingOf([k], x) == if k.stream == x && !k.launched then [Id(k.uid, k.stream)] else []
  {
    assert [k][..0] == [];
  }

  /** A kernel launched first of its stream moves from the head of the waiting ones to
      the end of the log. */
  lemma {:induction false} LaunchMoves(ks: seq<Info>, log: seq<Id>, j: nat, x: nat)
    requires j < |ks| && !ks[j].launched && forall i | 0 <= i < j :: ks[i].stream != ks[j].stream
    ensures Of(log + [Id(ks[j].uid, ks[j].stream)], x) + WaitingOf(ks[j := ks[j].(launched := true)], x)
         == Of(log, x) + WaitingOf(ks, x)
  {
    hide WaitingOf, Of;
    var k := ks[j];
    var ls := ks[j := k.(launched := true)];
    OfAppend(log, Id(k.uid, k.stream), x);
    WaitingAt(ks, j, x);
    WaitingAt(ls, j, x);
    WaitingOne(k, x);
    WaitingOne(ls[j], x);
    assert ls[..j] == ks[..j] && ls[j+1..] == ks[j+1..];
    var before, after := WaitingOf(ks[..j], x), WaitingOf(ks[j+1..], x);
    if k.stream == x {
      NoneWaiting(ks[..j], x);
      MoveToLog(Of(log, x), [Id(k.uid, k.stream)], after);
    } else {
      assert Of(log, x) + [] == Of(log, x);
    }
  }

  lemma {:induction false} MoveToLog(a: seq<Id>, b: seq<Id>, c: seq<Id>)
    ensures (a + b) + ([] + [] + c) == a + ([] + b + c)
  {
  }

  lemma {:induction false} BusyLaunch(ks: seq<Info>, busy: seq<nat>, j: nat)
    requires BusyIsLaunched(ks, busy) && j < |ks| && ks[j].stream !in busy
    ensures BusyIsLaunched(ks[j := ks[j].(launched := true)], busy + [ks[j].stream])
  {
    var ls := ks[j := ks[j].(launched := true)];
    forall x | x in busy + [ks[j].stream] ensures exists i :: 0 <= i < |ls| && ls[i].launched && ls[i].stream == x {
      if x == ks[j].stream {
        assert ls[j].launched;
      } else {
        var i :| 0 <= i < |ks| && ks[i].launched && ks[i].stream == x;
        assert ls[i].launched;
      }
    }
  }

  /** When position j is launched, no earlier kernel of the window is on its stream. */
  lemma {:induction false} FirstWhenLaunched(s: State, accepts: nat -> bool, j: nat)
    requires j < |s.kernels| && Falling(accepts, |s.kernels|) && Offered(s, accepts, j)
    requires s.kernels[j].stream !in s.busy && accepts(j)
    ensures forall i | 0 <= i < j :: s.kernels[i].stream != s.kernels[j].stream
  {
  }

  ghost predicate StreamsExclusive(s: State) {
    BusyIsLaunched(s.kernels, s.busy) && FirstOfStream(s.kernels)
  }

  lemma {:induction false} LaunchOneExclusive(s: State, accepts: nat -> bool, j: nat)
    requires StreamsExclusive(s) && j < |s.kernels| && Falling(accepts, |s.kernels|) && Offered(s, accepts, j)
    ensures var t := LaunchOne(s, accepts, j); StreamsExclusive(t) && Offered(t, accepts, j + 1)
  {
    var k := s.kernels[j];
    if k.stream !in s.busy && accepts(j) && !k.launched {
      FirstWhenLaunched(s, accepts, j);
      BusyLaunch(s.kernels, s.busy, j);
    }
  }

  lemma {:induction false} LaunchExclusive(s: State, accepts: nat -> bool, j: nat)
    requires StreamsExclusive(s) && j <= |s.kernels| && Falling(accepts, |s.kernels|) && Offered(s, accepts, j)
    ensures StreamsExclusive(LaunchFrom(s, accepts, j))
    decreases |s.kernels| - j
  {
    hide StreamsExclusive, Offered, Falling;
    if j < |s.kernels| {
      LaunchOneExclusive(s, accepts, j);
      LaunchExclusive(LaunchOne(s, accepts, j), accepts, j + 1);
    }
  }

  lemma {:induction false} LaunchOneKeeps(cmds: seq<Command>, w: nat, s: State, accepts: nat -> bool, j: nat)
    requires Inv(cmds, w, s) && j < |s.kernels| && Falling(accepts, |s.kernels|) && Offered(s, accepts, j)
    ensures var t := LaunchOne(s, accepts, j); Inv(cmds, w, t) && Offered(t, accepts, j + 1)
  {
    var t := LaunchOne(s, accepts, j);
    var k := s.kernels[j];
    LaunchOneExclusive(s, accepts, j);
    if k.stream !in s.busy && accepts(j) && !k.launched {
      FirstWhenLaunched(s, accepts, j);
      hide BusyIsLaunched, FirstOfStream, Offered, Launches;
      forall x ensures Of(t.log, x) + WaitingOf(t.kernels, x) == Of(Parsed(cmds, t.next), x) {
        assert Of(s.log, x) + WaitingOf(s.kernels, x) == Of(Parsed(cmds, s.next), x);
        LaunchMoves(s.kernels, s.log, j, x);
      }
    }
  }

  lemma {:induction false} LaunchKeeps(cmds: seq<Command>, w: nat, s: State, accepts: nat -> bool, j: nat)
    requires Inv(cmds, w, s) && j <= |s.kernels| && Falling(accepts, |s.kernels|) && Offered(s, accepts, j)
    ensures var t := LaunchFrom(s, accepts, j);
      Inv(cmds, w, t) && |t.kernels| == |s.kernels| && t.next == s.next && Offered(t, accepts, |t.kernels|)
    decreases |s.kernels| - j
  {
    hide Inv, Offered, Falling;
    if j < |s.kernels| {
      LaunchOneKeeps(cmds, w, s, accepts, j);
      LaunchKeeps(cmds, w, LaunchOne(s, accepts, j), accepts, j + 1);
    }
  }

  // ---- why the GPU must refuse consistently ----

  predicate StaysLaunched(k: Info, k': Info) {
    k'.uid == k.uid && k'.stream == k.stream && (k.launched ==> k'.launched)
  }

  lemma {:induction false} LaunchedStay(s: State, accepts: nat -> bool, m: nat)
    requires m <= |s.kernels|
    ensures |LaunchFrom(s, accepts, m).kernels| == |s.kernels|
    ensures forall h | 0 <= h < |s.kernels| :: StaysLaunched(s.kernels[h], LaunchFrom(s, accepts, m).kernels[h])
    decreases |s.kernels| - m
  {
    if m < |s.kernels| { LaunchedStay(LaunchOne(s, accepts, m), accepts, m + 1); }
  }

  /** An accepted kernel is launched if nothing accepted before it takes its stream. */
  lemma {:induction false} AcceptedLaunches(s: State, accepts: nat -> bool, m: nat, q: nat)
    requires m <= q < |s.kernels| && accepts(q) && s.kernels[q].stream !in s.busy
    requires forall h | m <= h < q :: s.kernels[h].stream != s.kernels[q].stream || !accepts(h)
    ensures var t := LaunchFrom(s, accepts, m); |t.kernels| == |s.kernels| && t.kernels[q].launched
    decreases q - m
  {
    if m == q {
      LaunchedStay(LaunchOne(s, accepts, m), accepts, m + 1);
    } else {
      AcceptedLaunches(LaunchOne(s, accepts, m), accepts, m + 1, q);
    }
  }

  /** Nothing from position m on that would be accepted is before kernel q on its stream. */
  ghost predicate FirstAccepted(ks: seq<Info>, accepts: nat -> bool, m: nat, q: nat)
    requires q < |ks|
  {
    accepts(q) && forall h | m <= h < q :: ks[h].stream != ks[q].stream || !accepts(h)
  }

  /** The kernels a pass launched, in window order. */
  function NewFrom(ks: seq<Info>, ls: seq<Info>, m: nat): seq<Id>
    requires m <= |ks| == |ls|
    decreases |ks| - m
  {
    if m == |ks| then []
    else (if ls[m].launched && !ks[m].launched then [Id(ks[m].uid, ks[m].stream)] else []) + NewFrom(ks, ls, m + 1)
  }

  /** A pass launches exactly the kernels that are the first accepted of a stream that was
      free, and nothing else changes; what it launches is logged in window order. */
  lemma {:induction false} LaunchedIff(s: State, accepts: nat -> bool, m: nat)
    requires m <= |s.kernels| && forall i | 0 <= i < |s.kernels| && s.kernels[i].launched :: s.kernels[i].stream in s.busy
    ensures |LaunchFrom(s, accepts, m).kernels| == |s.kernels| && LaunchFrom(s, accepts, m).next == s.next
    ensures forall q | 0 <= q < |s.kernels| :: LaunchFrom(s, accepts, m).kernels[q] == s.kernels[q].(launched := s.kernels[q].launched
      || (q >= m && s.kernels[q].stream !in s.busy && FirstAccepted(s.kernels, accepts, m, q)))
    decreases |s.kernels| - m
  {
    if m < |s.kernels| {
      var u := LaunchOne(s, accepts, m);
      LaunchedIff(u, accepts, m + 1);
      var t := LaunchFrom(u, accepts, m + 1);
      forall q | 0 <= q < |s.kernels| ensures t.kernels[q] == s.kernels[q].(launched := s.kernels[q].launched
           || (q >= m && s.kernels[q].stream !in s.busy && FirstAccepted(s.kernels, accepts, m, q))) {
        assert u.kernels[q].stream == s.kernels[q].stream;
      }
    }
  }

  lemma {:induction false} LaunchOneLogs(s: State, accepts: nat -> bool, m: nat)
    requires m < |s.kernels| && forall i | 0 <= i < |s.kernels| && s.kernels[i].launched :: s.kernels[i].stream in s.busy
    ensures var u := LaunchOne(s, accepts, m);
      && |u.kernels| == |s.kernels| && (forall i | m < i < |s.kernels| :: u.kernels[i] == s.kernels[i])
      && (forall i | 0 <= i < |u.kernels| && u.kernels[i].launched :: u.kernels[i].stream in u.busy)
      && u.log == s.log + if u.kernels[m].launched && !s.kernels[m].launched then [Id(s.kernels[m].uid, s.kernels[m].stream)] else []
    ensures LaunchFrom(s, accepts, m) == LaunchFrom(LaunchOne(s, accepts, m), accepts, m + 1)
  {
  }

  lemma {:induction false} LaunchedLogged(s: State, accepts: nat -> bool, m: nat)
    requires m <= |s.kernels| && forall i | 0 <= i < |s.kernels| && s.kernels[i].launched :: s.kernels[i].stream in s.busy
    ensures var t := LaunchFrom(s, accepts, m); |t.kernels| == |s.kernels| && t.log == s.log + NewFrom(s.kernels, t.kernels, m)
    decreases |s.kernels| - m
  {
    if m < |s.kernels| {
      hide LaunchOne, LaunchFrom, FirstAccepted;
      LaunchOneLogs(s, accepts, m);
      var u := LaunchOne(s, accepts, m);
      LaunchedLogged(u, accepts, m + 1);
      LaunchedIff(u, accepts, m + 1);
      var t := LaunchFrom(u, accepts, m + 1);
      NewSame(s.kernels, u.kernels, t.kernels, m + 1);
      assert t.kernels[m].launched == u.kernels[m].launched;
    }
  }

  lemma {:induction false} NewSame(ks: seq<Info>, us: seq<Info>, ls: seq<Info>, m: nat)
    requires m <= |ks| == |us| == |ls| && forall i | m <= i < |ks| :: us[i] == ks[i]
    ensures NewFrom(ks, ls, m) == NewFrom(us, ls, m)
    decreases |ks| - m
  {
    if m < |ks| { NewSame(ks, us, ls, m + 1); }
  }

  ghost predicate AlwaysExclusive(accepts: nat -> bool, n: nat) {
    forall s: State | |s.kernels| == n && StreamsExclusive(s) :: StreamsExclusive(LaunchFrom(s, accepts, 0))
  }

  /** Two kernels of stream i at positions i and j, every other kernel on its own stream. */
  ghost function Rivals(n: nat, i: nat, j: nat): State {
    State(seq(n, k requires 0 <= k < n => Info(k + 1, if k == j then i else k, false)), [], 0, [])
  }

  /** A pass over n kernels keeps streams in order, whatever the window holds, exactly
      when the GPU does not accept a kernel after refusing an earlier one. */
  lemma {:induction false} ExclusiveIffFalling(accepts: nat -> bool, n: nat)
    ensures AlwaysExclusive(accepts, n) <==> Falling(accepts, n)
  {
    if Falling(accepts, n) {
      forall s: State | |s.kernels| == n && StreamsExclusive(s) ensures StreamsExclusive(LaunchFrom(s, accepts, 0)) {
        LaunchExclusive(s, accepts, 0);
      }
    } else {
      var i: nat, j: nat :| i < j < n && !accepts(i) && accepts(j);
      var s := Rivals(n, i, j);
      assert StreamsExclusive(s);
      AcceptedLaunches(s, accepts, 0, j);
      LaunchedStay(s, accepts, 0);
      var t := LaunchFrom(s, accepts, 0);
      assert t.kernels[i].stream == t.kernels[j].stream && t.kernels[j].launched;
    }
  }

  // ---- retiring ----

  lemma {:induction false} TailDistinct(xs: seq<nat>)
    requires NoDuplicates(xs) && xs != []
    ensures NoDuplicates(xs[1..]) && xs[0] !in xs[1..]
  {
    forall i | 0 <= i < |xs| - 1 ensures xs[1..][i] != xs[0] {
      assert xs[1..][i] == xs[i + 1];
    }
  }

  lemma {:induction false} WithoutIs(xs: seq<nat>, x: nat)
    requires NoDuplicates(xs) && x in xs
    ensures NoDuplicates(Without(xs, x)) && forall y :: y in Without(xs, x) <==> y in xs && y != x
  {
    TailDistinct(xs);
    assert xs == [xs[0]] + xs[1..];
    if xs[0] != x {
      WithoutIs(xs[1..], x);
      var rest := Without(xs[1..], x);
      assert xs[0] !in rest;
      assert Without(xs, x) == [xs[0]] + rest;
    }
  }

  lemma {:induction false} CleanupBusy(ks: seq<Info>, busy: seq<nat>, j: nat)
    requires BusyIsLaunched(ks, busy) && FirstOfStream(ks) && j < |ks| && ks[j].launched
    ensures BusyIsLaunched(ks[..j] + ks[j+1..], Without(busy, ks[j].stream))
  {
    var ls, rest := ks[..j] + ks[j+1..], Without(busy, ks[j].stream);
    WithoutIs(busy, ks[j].stream);
    hide NoDuplicates, Without;
    forall i | 0 <= i < |ls| && ls[i].launched ensures ls[i].stream in rest {
      var h := if i < j then i else i + 1;
      assert ks[h] == ls[i];
    }
    forall x | x in rest ensures exists i :: 0 <= i < |ls| && ls[i].launched && ls[i].stream == x {
      var h :| 0 <= h < |ks| && ks[h].launched && ks[h].stream == x;
      assert ls[if h < j then h else h - 1] == ks[h];
    }
  }

  lemma {:induction false} CleanupOrder(ks: seq<Info>, last: nat, j: nat)
    requires FirstOfStream(ks) && UidsRise(ks, last) && j < |ks|
    ensures FirstOfStream(ks[..j] + ks[j+1..]) && UidsRise(ks[..j] + ks[j+1..], last)
  {
    var ls := ks[..j] + ks[j+1..];
    assert forall i | 0 <= i < |ls| :: ls[i] == ks[if i < j then i else i + 1];
  }

  lemma {:induction false} CleanupWaiting(ks: seq<Info>, j: nat, x: nat)
    requires j < |ks| && ks[j].launched
    ensures WaitingOf(ks[..j] + ks[j+1..], x) == WaitingOf(ks, x)
  {
    hide WaitingOf;
    WaitingAt(ks, j, x);
    WaitingOne(ks[j], x);
    WaitingConcat(ks[..j], ks[j+1..], x);
  }

  /** Retiring a running kernel keeps the invariant and makes room for one more. */
  lemma {:induction false} CleanupKeeps(cmds: seq<Command>, w: nat, s: State, j: nat)
    requires Inv(cmds, w, s) && j < |s.kernels| && s.kernels[j].launched
    ensures var t := Cleanup(s, s.kernels[j].uid);
      Inv(cmds, w, t) && |t.kernels| == |s.kernels| - 1 && t.next == s.next && t.log == s.log
    ensures Find(s.kernels, s.kernels[j].uid, 0) == j
  {
    var i := Find(s.kernels, s.kernels[j].uid, 0);
    assert i == j;
    var t := Cleanup(s, s.kernels[j].uid);
    CleanupBusy(s.kernels, s.busy, j);
    CleanupOrder(s.kernels, Launches(cmds, s.next), j);
    hide BusyIsLaunched, FirstOfStream, UidsRise, Launches, Parsed, Find, Without, Of, WaitingOf;
    forall x ensures Of(t.log, x) + WaitingOf(t.kernels, x) == Of(Parsed(cmds, t.next), x) {
      CleanupWaiting(s.kernels, j, x);
    }
  }

  // ---- whole runs ----

  /** The GPU refuses consistently and reports a kernel that is running. */
  ghost predicate Allowed(cmds: seq<Command>, w: nat, s: State, r: Round)
    requires s.next <= |cmds|
  {
    && Falling(r.accepts, |Parse(cmds, w, s).kernels|)
    && var t := Launched(cmds, w, s, r);
       exists j :: 0 <= j < |t.kernels| && t.kernels[j].launched && t.kernels[j].uid == r.finished
  }

  lemma {:induction false} StepKeeps(cmds: seq<Command>, w: nat, s: State, r: Round)
    requires Inv(cmds, w, s) && Allowed(cmds, w, s, r)
    ensures var t := Step(cmds, w, s, r); Inv(cmds, w, t) && s.next <= t.next
    ensures var t := Step(cmds, w, s, r); |t.kernels| < w && (|t.kernels| == w - 1 || t.next == |cmds|)
    ensures var t := Step(cmds, w, s, r);
      Launches(cmds, t.next) - |t.kernels| == Launches(cmds, s.next) - |s.kernels| + 1
  {
    ParseKeeps(cmds, w, s);
    LaunchKeeps(cmds, w, Parse(cmds, w, s), r.accepts, 0);
    var t := Launched(cmds, w, s, r);
    assert Inv(cmds, w, t);
    var j :| 0 <= j < |t.kernels| && t.kernels[j].launched && t.kernels[j].uid == r.finished;
    CleanupKeeps(cmds, w, t, j);
    ParseCounts(cmds, w, s);
  }

  /** Reading moves every launch it passes into the window. */
  lemma {:induction false} ParseCounts(cmds: seq<Command>, w: nat, s: State)
    requires s.next <= |cmds|
    ensures var t := Parse(cmds, w, s);
      Launches(cmds, t.next) - |t.kernels| == Launches(cmds, s.next) - |s.kernels|
    decreases |cmds| - s.next
  {
    if |s.kernels| < w && s.next < |cmds| {
      ParseCounts(cmds, w, ParseOne(cmds, s));
    }
  }

  ghost predicate IsRun(cmds: seq<Command>, w: nat, states: seq<State>, rounds: seq<Round>) {
    && |states| == |rounds| + 1 && states[0] == Initial()
    && forall i | 0 <= i < |rounds| :: IsStep(cmds, w, states[i], rounds[i], states[i+1])
  }

  ghost predicate IsStep(cmds: seq<Command>, w: nat, s: State, r: Round, t: State) {
    s.next <= |cmds| && Allowed(cmds, w, s, r) && t == Step(cmds, w, s, r)
  }

  /** After any number of rounds the invariant holds, and exactly one kernel per round
      has left the window. */
  lemma {:induction false} RunKeeps(cmds: seq<Command>, w: nat, states: seq<State>, rounds: seq<Round>, i: nat)
    requires IsRun(cmds, w, states, rounds) && i <= |rounds|
    ensures Inv(cmds, w, states[i])
    ensures Launches(cmds, states[i].next) == |states[i].kernels| + i
  {
    hide Step, Allowed;
    if i == 0 {
      InitialInv(cmds, w);
    } else {
      RunKeeps(cmds, w, states, rounds, i - 1);
      assert IsStep(cmds, w, states[i-1], rounds[i-1], states[i]);
      hide Inv;
      StepKeeps(cmds, w, states[i-1], rounds[i-1]);
    }
  }

  lemma {:induction false} LaunchesRise(cmds: seq<Command>, a: nat, b: nat)
    requires a <= b <= |cmds|
    ensures Launches(cmds, a) <= Launches(cmds, b)
    ensures Launches(cmds, a) == Launches(cmds, b) ==> Parsed(cmds, a) == Parsed(cmds, b)
  {
    if a < b { LaunchesRise(cmds, a, b - 1); }
  }

  lemma {:induction false} HeadIn(xs: seq<nat>)
    ensures xs != [] ==> xs[0] in xs
  {
  }

  /** A run has at most as many rounds as there are kernels, and one with that many has
      launched, on every stream, exactly its kernels in command order. */
  lemma {:induction false} RunEnds(cmds: seq<Command>, w: nat, states: seq<State>, rounds: seq<Round>)
    requires IsRun(cmds, w, states, rounds)
    ensures |rounds| <= Launches(cmds, |cmds|)
    ensures |rounds| == Launches(cmds, |cmds|) ==> var t := states[|rounds|];
      t.kernels == [] && t.busy == [] && forall x :: Of(t.log, x) == Of(Parsed(cmds, |cmds|), x)
  {
    var t := states[|rounds|];
    RunKeeps(cmds, w, states, rounds, |rounds|);
    LaunchesRise(cmds, t.next, |cmds|);
    if |rounds| == Launches(cmds, |cmds|) {
      assert t.kernels == [];
      HeadIn(t.busy);
      forall x ensures Of(t.log, x) == Of(Parsed(cmds, |cmds|), x) {
        assert Of(t.log, x) + WaitingOf(t.kernels, x) == Of(Parsed(cmds, t.next), x);
      }
    }
  }

  /** At any time the launches of a stream are the first kernels of that stream among all
      commands, in their order and each once. */
  lemma {:induction false} LaunchedInCommandOrder(cmds: seq<Command>, w: nat, states: seq<State>, rounds: seq<Round>, i: nat, x: nat)
    requires IsRun(cmds, w, states, rounds) && i <= |rounds|
    ensures Of(states[i].log, x) <= Of(Parsed(cmds, |cmds|), x)
  {
    var s := states[i];
    RunKeeps(cmds, w, states, rounds, i);
    assert Of(s.log, x) + WaitingOf(s.kernels, x) == Of(Parsed(cmds, s.next), x);
    ParsedPrefix(cmds, s.next, |cmds|, x);
  }

  lemma {:induction false} ParsedPrefix(cmds: seq<Command>, a: nat, b: nat, x: nat)
    requires a <= b <= |cmds|
    ensures Of(Parsed(cmds, a), x) <= Of(Parsed(cmds, b), x)
  {
    if a < b {
      ParsedPrefix(cmds, a, b - 1, x);
      assert !cmds[b-1].Launch? ==> Parsed(cmds, b) == Parsed(cmds, b - 1);
      if cmds[b-1].Launch? {
        OfAppend(Parsed(cmds, b - 1), Id(Launches(cmds, b - 1) + 1, cmds[b-1].stream), x);
      }
    }
  }

  /** After reading, the window is empty exactly when it was and only copies are left to
      read; a round started then has no kernel to retire. */
  lemma {:induction false} EmptyAfterParse(cmds: seq<Command>, w: nat, s: State)
    requires s.next <= |cmds| && w > 0
    ensures Parse(cmds, w, s).kernels == [] <==> s.kernels == [] && forall i | s.next <= i < |cmds| :: cmds[i].Memcpy?
    decreases |cmds| - s.next
  {
    if |s.kernels| < w && s.next < |cmds| {
      EmptyAfterParse(cmds, w, ParseOne(cmds, s));
    }
  }

  // ---- running out of kernels ----

  /** The commands end with a copy, and either the window holds one kernel only or there is
      no launch at all. */
  predicate CopiesLeftOver(cmds: seq<Command>, w: nat) {
    cmds != [] && cmds[|cmds|-1].Memcpy? && (w == 1 || Launches(cmds, |cmds|) == 0)
  }

  /** Reading that filled the window ended with a launch. */
  lemma {:induction false} FullAfterLaunch(cmds: seq<Command>, w: nat, s: State)
    requires s.next <= |cmds| && |s.kernels| < w && |Parse(cmds, w, s).kernels| == w
    ensures var t := Parse(cmds, w, s); 0 < t.next && cmds[t.next-1].Launch?
    decreases |cmds| - s.next
  {
    if s.next < |cmds| {
      var t := ParseOne(cmds, s);
      if |t.kernels| < w { FullAfterLaunch(cmds, w, t); }
    }
  }

  lemma {:induction false} NoLaunchLeft(cmds: seq<Command>, a: nat)
    requires a < |cmds| && Launches(cmds, a) == Launches(cmds, |cmds|)
    ensures cmds[|cmds|-1].Memcpy?
  {
    LaunchesRise(cmds, a, |cmds| - 1);
  }

  lemma {:induction false} LaunchingKeepsPlace(s: State, accepts: nat -> bool, j: nat)
    requires j <= |s.kernels|
    ensures LaunchFrom(s, accepts, j).next == s.next && |LaunchFrom(s, accepts, j).kernels| == |s.kernels|
    decreases |s.kernels| - j
  {
    if j < |s.kernels| { LaunchingKeepsPlace(LaunchOne(s, accepts, j), accepts, j + 1); }
  }

  /** With a window of one, a round stops reading right after a launch. */
  lemma {:induction false} StopsAfterLaunch(cmds: seq<Command>, s: State, r: Round)
    requires s.next <= |cmds| && s.kernels == [] && Allowed(cmds, 1, s, r)
    ensures var t := Step(cmds, 1, s, r); 0 < t.next <= |cmds| && cmds[t.next-1].Launch?
  {
    var t := Parse(cmds, 1, s);
    LaunchingKeepsPlace(t, r.accepts, 0);
    assert t.kernels != [];
    ParseFits(cmds, 1, s);
    FullAfterLaunch(cmds, 1, s);
  }

  lemma {:induction false} ParseFits(cmds: seq<Command>, w: nat, s: State)
    requires s.next <= |cmds| && |s.kernels| <= w
    ensures |Parse(cmds, w, s).kernels| <= w
    decreases |cmds| - s.next
  {
    if |s.kernels| < w && s.next < |cmds| { ParseFits(cmds, w, ParseOne(cmds, s)); }
  }

  /** After as many rounds as there are kernels the window is empty, and commands are left
      unread exactly under that condition on the commands and the window size. */
  lemma {:induction false} LeftOverIff(cmds: seq<Command>, w: nat, states: seq<State>, rounds: seq<Round>, n: nat)
    requires IsRun(cmds, w, states, rounds) && n <= |rounds| && n == Launches(cmds, |cmds|)
    ensures states[n].kernels == [] && states[n].next <= |cmds|
    ensures states[n].next < |cmds| <==> CopiesLeftOver(cmds, w)
  {
    hide Step, Allowed;
    var t := states[n];
    RunKeeps(cmds, w, states, rounds, n);
    LaunchesRise(cmds, t.next, |cmds|);
    if n > 0 {
      var s := states[n-1];
      RunKeeps(cmds, w, states, rounds, n - 1);
      assert IsStep(cmds, w, s, rounds[n-1], t);
      StepKeeps(cmds, w, s, rounds[n-1]);
      if w == 1 {
        EmptyBetweenRounds(cmds, states, rounds, n - 1);
        StopsAfterLaunch(cmds, s, rounds[n-1]);
      }
    }
    if t.next < |cmds| { NoLaunchLeft(cmds, t.next); }
  }

  lemma {:induction false} EmptyBetweenRounds(cmds: seq<Command>, states: seq<State>, rounds: seq<Round>, i: nat)
    requires IsRun(cmds, 1, states, rounds) && i <= |rounds|
    ensures states[i].kernels == []
  {
    hide Step, Allowed;
    if i > 0 {
      RunKeeps(cmds, 1, states, rounds, i - 1);
      assert IsStep(cmds, 1, states[i-1], rounds[i-1], states[i]);
      StepKeeps(cmds, 1, states[i-1], rounds[i-1]);
    }
  }

  /** One launch, then a copy, with a window of one: what the first round does. */
  lemma {:induction false} ExampleRound(cmds: seq<Command>, r: Round)
    requires cmds == [Launch(0), Memcpy(0, 0)] && r == Round(i => true, 1)
    ensures Launched(cmds, 1, Initial(), r) == State([Info(1, 0, true)], [0], 1, [Id(1, 0)])
    ensures |Parse(cmds, 1, Initial()).kernels| == 1
  {
    assert Launches(cmds, 0) == 0;
    var p := State([Info(1, 0, false)], [], 1, []);
    assert ParseOne(cmds, Initial()) == p && Parse(cmds, 1, p) == p;
    var l := State([Info(1, 0, true)], [0], 1, [Id(1, 0)]);
    assert LaunchOne(p, r.accepts, 0) == l && LaunchFrom(l, r.accepts, 1) == l;
  }

  /** A concrete case: one launch, then a copy, a window of one. After the only kernel is
      retired the copy is still to be read. */
  lemma {:induction false} LeftOverExample()
    ensures var cmds := [Launch(0), Memcpy(0, 0)];
      exists states: seq<State>, rounds: seq<Round> ::
        IsRun(cmds, 1, states, rounds) && |rounds| == 1 && states[1].kernels == [] && states[1].next == 1 < |cmds|
  {
    var cmds, r, s := [Launch(0), Memcpy(0, 0)], Round(i => true, 1), Initial();
    ExampleRound(cmds, r);
    hide LaunchFrom, Parse, Find;
    var l := Launched(cmds, 1, s, r);
    assert l.kernels[0].launched && l.kernels[0].uid == r.finished;
    assert Allowed(cmds, 1, s, r);
    var t := Step(cmds, 1, s, r);
    assert Find(l.kernels, 1, 0) == 0;
    hide Launched, Cleanup;
    var states, rounds := [s, t], [r];
    assert IsStep(cmds, 1, s, r, t);
    assert IsRun(cmds, 1, states, rounds);
  }
}
