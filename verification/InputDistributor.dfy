/** The input distributor: keyboards and mice register at elevations, and each input goes to the
    highest one that is active. The reference is the history of events. */
module InputDistributor {
  import opened Wrappers

  datatype Kind = Keyboard | Mouse

  /** `id` is the channel of one registration request. */
  datatype Sink = Sink(id: nat, elevation: nat, name: string)

  /** `Activate` and `Deactivate` are the guest device switching its input source. */
  datatype Event =
    | Start | Stop | OtherStateRequest | Done
    | Add(kind: Kind, sink: Sink)
    | Activate(id: nat) | Deactivate(id: nat)
    | Input(kind: Kind)

  // ---- The sorted list of sinks ----

  ghost predicate Sorted(sinks: seq<Sink>) {
    forall i, j :: 0 <= i < j < |sinks| ==> sinks[i].elevation < sinks[j].elevation
  }

  /** Which sink stands at each elevation. */
  ghost function Chart(sinks: seq<Sink>): map<nat, Sink> {
    if sinks == [] then map[]
    else Chart(sinks[..|sinks| - 1])[sinks[|sinks| - 1].elevation := sinks[|sinks| - 1]]
  }

  lemma {:induction false} ChartOf(sinks: seq<Sink>, e: nat)
    requires Sorted(sinks)
    ensures e in Chart(sinks) <==> exists i :: 0 <= i < |sinks| && sinks[i].elevation == e
    ensures forall i :: 0 <= i < |sinks| && sinks[i].elevation == e ==> Chart(sinks)[e] == sinks[i]
    decreases |sinks|
  {
    if sinks != [] {
      var n := |sinks| - 1;
      var init := sinks[..n];
      ChartOf(init, e);
      assert forall i :: 0 <= i < n ==> init[i] == sinks[i];
      if e == sinks[n].elevation {
        assert sinks[n].elevation == e;
      } else if e in Chart(init) {
        var i :| 0 <= i < n && init[i].elevation == e;
        assert sinks[i].elevation == e;
      }
    }
  }

  /** The sink that should get an input: the highest active one, if any is active. */
  ghost predicate IsTop(chart: map<nat, Sink>, active: set<nat>, target: Option<Sink>) {
    match target
    case None => forall e :: e in chart ==> chart[e].id !in active
    case Some(s) =>
      s.elevation in chart && chart[s.elevation] == s && s.id in active &&
      forall e :: e in chart && e > s.elevation ==> chart[e].id !in active
  }

  /** There is only one such sink. */
  lemma TopUnique(chart: map<nat, Sink>, active: set<nat>, s: Option<Sink>, t: Option<Sink>)
    requires forall e :: e in chart ==> chart[e].elevation == e
    requires IsTop(chart, active, s) && IsTop(chart, active, t)
    ensures s == t
  {
    if s.Some? && t.Some? {
      assert !(s.value.elevation < t.value.elevation) && !(t.value.elevation < s.value.elevation);
    }
  }

  method BinarySearch(sinks: seq<Sink>, e: nat) returns (found: bool, i: nat)
    requires Sorted(sinks)
    ensures i <= |sinks| && forall j :: 0 <= j < i ==> sinks[j].elevation < e
    ensures found ==> i < |sinks| && sinks[i].elevation == e
    ensures !found ==> forall j :: i <= j < |sinks| ==> sinks[j].elevation > e
  {
    var lo, hi := 0, |sinks|;
    while lo < hi
      invariant 0 <= lo <= hi <= |sinks|
      invariant forall j :: 0 <= j < lo ==> sinks[j].elevation < e
      invariant forall j :: hi <= j < |sinks| ==> sinks[j].elevation > e
    {
      var mid := lo + (hi - lo) / 2;
      if sinks[mid].elevation < e {
        lo := mid + 1;
      } else if sinks[mid].elevation > e {
        hi := mid;
      } else {
        return true, mid;
      }
    }
    return false, lo;
  }

  class Forwarder {
    var sinks: seq<Sink>

    constructor ()
      ensures sinks == []
    {
      sinks := [];
    }

    /** The first sink at an elevation stays; a later one is refused. */
    method AddSink(sink: Sink) returns (ok: bool)
      requires Sorted(sinks)
      modifies this
      ensures Sorted(sinks)
      ensures ok <==> sink.elevation !in Chart(old(sinks))
      ensures Chart(sinks) == if ok then Chart(old(sinks))[sink.elevation := sink] else Chart(old(sinks))
    {
      var found, i := BinarySearch(sinks, sink.elevation);
      ChartOf(sinks, sink.elevation);
      if found { return false; }
      ghost var before := sinks;
      sinks := sinks[..i] + [sink] + sinks[i..];
      InsertedChart(before, i, sink);
      ok := true;
    }

    method Forward(active: set<nat>) returns (target: Option<Sink>)
      requires Sorted(sinks)
      ensures IsTop(Chart(sinks), active, target)
    {
      var i := |sinks|;
      while i > 0
        invariant 0 <= i <= |sinks|
        invariant forall j :: i <= j < |sinks| ==> sinks[j].id !in active
      {
        i := i - 1;
        if sinks[i].id in active {
          HighestActive(sinks, active, i);
          return Some(sinks[i]);
        }
      }
      NoneActive(sinks, active);
      target := None;
    }
  }

  lemma InsertedSorted(sinks: seq<Sink>, i: nat, sink: Sink)
    requires Sorted(sinks) && i <= |sinks|
    requires forall j :: 0 <= j < i ==> sinks[j].elevation < sink.elevation
    requires forall j :: i <= j < |sinks| ==> sinks[j].elevation > sink.elevation
    ensures Sorted(sinks[..i] + [sink] + sinks[i..])
  {
  }

  lemma InsertedAt(sinks: seq<Sink>, i: nat, sink: Sink, e: nat)
    requires Sorted(sinks) && i <= |sinks| && Sorted(sinks[..i] + [sink] + sinks[i..])
    ensures var chart := Chart(sinks[..i] + [sink] + sinks[i..]);
            (e in chart <==> e in Chart(sinks) || e == sink.elevation) &&
            (e in chart ==> chart[e] == if e == sink.elevation then sink else Chart(sinks)[e])
  {
    hide Chart, Sorted;
    var all := sinks[..i] + [sink] + sinks[i..];
    ChartOf(sinks, e);
    ChartOf(all, e);
    assert all[i] == sink;
    if e != sink.elevation {
      if e in Chart(sinks) {
        var j :| 0 <= j < |sinks| && sinks[j].elevation == e;
        assert all[if j < i then j else j + 1] == sinks[j];
      }
      if e in Chart(all) {
        var j :| 0 <= j < |all| && all[j].elevation == e;
        assert all[j] == sinks[if j < i then j else j - 1];
      }
    }
  }

  lemma InsertedChart(sinks: seq<Sink>, i: nat, sink: Sink)
    requires Sorted(sinks) && i <= |sinks|
    requires forall j :: 0 <= j < i ==> sinks[j].elevation < sink.elevation
    requires forall j :: i <= j < |sinks| ==> sinks[j].elevation > sink.elevation
    ensures Sorted(sinks[..i] + [sink] + sinks[i..])
    ensures Chart(sinks[..i] + [sink] + sinks[i..]) == Chart(sinks)[sink.elevation := sink]
  {
    hide Chart, Sorted;
    InsertedSorted(sinks, i, sink);
    var all, chart := Chart(sinks[..i] + [sink] + sinks[i..]), Chart(sinks)[sink.elevation := sink];
    forall e: nat ensures (e in all <==> e in chart) && (e in chart ==> all[e] == chart[e]) {
      InsertedAt(sinks, i, sink, e);
    }
  }

  lemma HighestActive(sinks: seq<Sink>, active: set<nat>, i: nat)
    requires Sorted(sinks) && i < |sinks| && sinks[i].id in active
    requires forall j :: i < j < |sinks| ==> sinks[j].id !in active
    ensures IsTop(Chart(sinks), active, Some(sinks[i]))
  {
    hide Chart;
    ChartOf(sinks, sinks[i].elevation);
    forall e | e in Chart(sinks) && e > sinks[i].elevation ensures Chart(sinks)[e].id !in active {
      ChartOf(sinks, e);
      var j :| 0 <= j < |sinks| && sinks[j].elevation == e;
    }
  }

  lemma NoneActive(sinks: seq<Sink>, active: set<nat>)
    requires Sorted(sinks) && forall j :: 0 <= j < |sinks| ==> sinks[j].id !in active
    ensures IsTop(Chart(sinks), active, None)
  {
    hide Chart;
    forall e | e in Chart(sinks) ensures Chart(sinks)[e].id !in active {
      ChartOf(sinks, e);
      var j :| 0 <= j < |sinks| && sinks[j].elevation == e;
    }
  }

  // ---- The history ----

  /** Whether the unit runs after `h`: the last start or stop decides. */
  ghost function Running(h: seq<Event>): bool {
    if h == [] then false
    else
      match h[|h| - 1]
      case Start => true
      case Stop => false
      case _ => Running(h[..|h| - 1])
  }

  ghost function Active(h: seq<Event>): set<nat> {
    if h == [] then {}
    else
      var before := Active(h[..|h| - 1]);
      match h[|h| - 1]
      case Activate(id) => before + {id}
      case Deactivate(id) => before - {id}
      case _ => before
  }

  ghost predicate LastStart(h: seq<Event>, i: nat) {
    i < |h| && h[i] == Start && forall j :: i < j < |h| ==> h[j] != Stop
  }

  /** The unit runs exactly when it was started and not stopped since. */
  lemma {:induction false} RunningMeaning(h: seq<Event>)
    ensures Running(h) <==> exists i: nat :: LastStart(h, i)
    decreases |h|
  {
    if h != [] {
      var n := |h| - 1;
      var g := h[..n];
      RunningMeaning(g);
      assert forall i :: 0 <= i < n ==> g[i] == h[i];
      if h[n] == Start {
        assert LastStart(h, n);
      } else if Running(g) && h[n] != Stop {
        var i: nat :| LastStart(g, i);
        assert LastStart(h, i);
      }
      if i: nat :| LastStart(h, i) {
        if i < n { assert LastStart(g, i) && h[n] != Stop; }
      }
    }
  }

  ghost predicate LastActivated(h: seq<Event>, id: nat, i: nat) {
    i < |h| && h[i] == Activate(id) && forall j :: i < j < |h| ==> h[j] != Deactivate(id)
  }

  /** A sink is active exactly when its device activated it and did not deactivate it since. */
  lemma {:induction false} ActiveMeaning(h: seq<Event>, id: nat)
    ensures id in Active(h) <==> exists i: nat :: LastActivated(h, id, i)
    decreases |h|
  {
    if h != [] {
      var n := |h| - 1;
      var g := h[..n];
      ActiveMeaning(g, id);
      assert forall i :: 0 <= i < n ==> g[i] == h[i];
      if h[n] == Activate(id) {
        assert LastActivated(h, id, n);
      } else if id in Active(g) && h[n] != Deactivate(id) {
        var i: nat :| LastActivated(g, id, i);
        assert LastActivated(h, id, i);
      }
      if i: nat :| LastActivated(h, id, i) {
        if i < n { assert LastActivated(g, id, i) && h[n] != Deactivate(id); }
      }
    }
  }

  /** The first sink of this kind offered at each elevation. */
  ghost function Offered(h: seq<Event>, kind: Kind): map<nat, Sink> {
    if h == [] then map[]
    else
      var before, e := Offered(h[..|h| - 1], kind), h[|h| - 1];
      if e.Add? && e.kind == kind && e.sink.elevation !in before then before[e.sink.elevation := e.sink] else before
  }

  ghost predicate OffersAt(e: Event, kind: Kind, elevation: nat) {
    e.Add? && e.kind == kind && e.sink.elevation == elevation
  }

  lemma {:induction false} OfferedMeaning(h: seq<Event>, kind: Kind, e: nat)
    ensures e in Offered(h, kind) <==> exists i :: 0 <= i < |h| && OffersAt(h[i], kind, e)
    ensures e in Offered(h, kind) ==>
              exists i :: 0 <= i < |h| && OffersAt(h[i], kind, e) && h[i].sink == Offered(h, kind)[e] &&
                          forall j :: 0 <= j < i ==> !OffersAt(h[j], kind, e)
    decreases |h|
  {
    if h != [] {
      var n := |h| - 1;
      var g := h[..n];
      OfferedMeaning(g, kind, e);
      assert forall i :: 0 <= i < n ==> g[i] == h[i];
      if e in Offered(g, kind) {
        var i :| 0 <= i < n && OffersAt(g[i], kind, e) && g[i].sink == Offered(g, kind)[e] &&
                 forall j :: 0 <= j < i ==> !OffersAt(g[j], kind, e);
        assert OffersAt(h[i], kind, e) && h[i].sink == Offered(h, kind)[e];
      } else if OffersAt(h[n], kind, e) {
        assert h[n].sink == Offered(h, kind)[e];
      }
    }
  }

  /** What happens to the event after `h`: an input that arrives while running reaches exactly the
      highest active sink of its kind; nothing else is delivered. */
  ghost predicate Delivers(h: seq<Event>, e: Event, target: Option<Sink>) {
    if e.Input? && Running(h) then IsTop(Offered(h, e.kind), Active(h), target) else target == None
  }

  class Distributor {
    var running: bool
    const keyboard: Forwarder
    const mouse: Forwarder

    constructor ()
      ensures !running && keyboard.sinks == [] && mouse.sinks == [] && keyboard != mouse
      ensures fresh(keyboard) && fresh(mouse)
    {
      running := false;
      keyboard := new Forwarder();
      mouse := new Forwarder();
    }

    /** The state after `h`. */
    ghost predicate After(h: seq<Event>)
      reads this, keyboard, mouse
    {
      keyboard != mouse && Sorted(keyboard.sinks) && Sorted(mouse.sinks) && running == Running(h) &&
      Chart(keyboard.sinks) == Offered(h, Keyboard) && Chart(mouse.sinks) == Offered(h, Mouse)
    }

    method Handle(e: Event, active: set<nat>, ghost h: seq<Event>) returns (target: Option<Sink>)
      requires After(h) && active == Active(h)
      modifies this, keyboard, mouse
      ensures After(h + [e]) && Delivers(h, e, target)
    {
      hide Chart, Sorted, IsTop;
      assert (h + [e])[..|h|] == h;
      target := None;
      match e {
        case Start => running := true;
        case Stop => running := false;
        case Add(kind, sink) =>
          if kind == Keyboard {
            var _ := keyboard.AddSink(sink);
          } else {
            var _ := mouse.AddSink(sink);
          }
        case Input(kind) =>
          if running {
            if kind == Keyboard {
              target := keyboard.Forward(active);
            } else {
              target := mouse.Forward(active);
            }
          }
        case _ =>
      }
    }

    /** The event loop; `log` says where each event was delivered, up to the end of requests. */
    method Run(events: seq<Event>) returns (log: seq<Option<Sink>>)
      requires After([])
      modifies this, keyboard, mouse
      ensures |log| <= |events| && (|log| < |events| ==> events[|log|] == Done) && Done !in events[..|log|]
      ensures forall i :: 0 <= i < |log| ==> Delivers(events[..i], events[i], log[i])
      ensures After(events[..|log|])
    {
      hide IsTop, Chart, Sorted, Delivers, After, Active;
      log := [];
      var active := {};
      NothingActive();
      assert events[..0] == [];
      while |log| < |events| && events[|log|] != Done
        invariant |log| <= |events| && Done !in events[..|log|]
        invariant forall i :: 0 <= i < |log| ==> Delivers(events[..i], events[i], log[i])
        invariant After(events[..|log|]) && active == Active(events[..|log|])
        decreases |events| - |log|
      {
        var e := events[|log|];
        ghost var h := events[..|log|];
        assert events[..|log| + 1] == h + [e];
        ActiveStep(h, e);
        var target := Handle(e, active, h);
        if e.Activate? {
          active := active + {e.id};
        } else if e.Deactivate? {
          active := active - {e.id};
        }
        log := log + [target];
      }
    }
  }

  lemma NothingActive()
    ensures Active([]) == {}
  {
  }

  lemma ActiveStep(h: seq<Event>, e: Event)
    ensures Active(h + [e]) == if e.Activate? then Active(h) + {e.id} else if e.Deactivate? then Active(h) - {e.id} else Active(h)
  {
    assert (h + [e])[..|h|] == h;
  }
}
