/** The frame hand-off of calibration/webcam.py: a producer pushes every
    successful camera read into a queue of capacity 2, evicting the oldest
    frame when the queue is full, and the consumer drains the queue and keeps
    the newest frame. Sequential mode instead reads until a read succeeds.
    The two processes are modelled as one state machine: a push is a step of
    the producer, a drain a step of the consumer. */
module FrameBuffer {
  import opened Common

  /** `Queue(maxsize=2)`. */
  const Capacity: nat := 2

  /** One `cap.read()`: whether it succeeded (`ret`) and the frame it gave. */
  datatype Read<F> = Read(ok: bool, frame: F)

  /** The newest `Capacity` entries of `s`: what a bounded FIFO that evicts
      its oldest entry retains of everything pushed into it. */
  function Window<F>(s: seq<F>): (r: seq<F>)
    ensures |r| <= Capacity
    ensures |s| <= Capacity ==> r == s
    ensures |s| > Capacity ==> |r| == Capacity
    ensures r == s[|s| - |r|..]
  {
    if |s| <= Capacity then s else s[|s| - Capacity..]
  }

  /** The push in `_update_frame`: `q.get()` when `q.full()`, then `q.put`. */
  function Push<F>(q: seq<F>, f: F): (r: seq<F>)
    requires |q| <= Capacity
    ensures r == Window(q + [f])
    ensures |r| > 0 && r[|r| - 1] == f
  {
    if |q| == Capacity then
      assert (q + [f])[|q + [f]| - Capacity..] == q[1..] + [f];
      q[1..] + [f]
    else q + [f]
  }

  /** One iteration of the producer loop: a failed read leaves the queue as
      it was. */
  function ProducerStep<F>(q: seq<F>, read: Read<F>): (r: seq<F>)
    requires |q| <= Capacity
    ensures |r| <= Capacity
    ensures !read.ok ==> r == q
    ensures read.ok ==> r == Window(q + [read.frame])
  {
    if read.ok then Push(q, read.frame) else q
  }

  /** The frames of the successful reads, in order. */
  function Successes<F>(script: seq<Read<F>>): (r: seq<F>)
    ensures |r| <= |script|
  {
    if |script| == 0 then []
    else (if script[0].ok then [script[0].frame] else []) + Successes(script[1..])
  }

  /** The queue after the producer has performed `reads`, one per loop
      iteration. */
  function Produce<F>(q: seq<F>, script: seq<Read<F>>): (r: seq<F>)
    requires |q| <= Capacity
    ensures |r| <= Capacity
    decreases |script|
  {
    if |script| == 0 then q else Produce(ProducerStep(q, script[0]), script[1..])
  }

  /** The suffix of length `k` of `p + u` is the suffix of length `k` of `u`
      whenever `u` is long enough. */
  lemma SuffixOfAppend<F>(p: seq<F>, u: seq<F>, k: nat)
    requires k <= |u|
    ensures (p + u)[|p + u| - k..] == u[|u| - k..]
  {
    var v := p + u;
    var a, b := v[|v| - k..], u[|u| - k..];
    forall i | 0 <= i < k ensures a[i] == b[i] {
      assert v[|v| - k + i] == u[|u| - k + i];
    }
    assert a == b;
  }

  lemma SeqAssoc<F>(a: seq<F>, b: seq<F>, c: seq<F>)
    ensures a + (b + c) == (a + b) + c
  {
  }

  /** Trimming to the window early loses nothing that a later window would
      have kept. */
  lemma WindowAppend<F>(s: seq<F>, t: seq<F>)
    ensures Window(Window(s) + t) == Window(s + t)
  {
    if |s| > Capacity {
      var w := s[|s| - Capacity..];
      var p := s[..|s| - Capacity];
      assert Window(s) == w;
      assert s + t == p + (w + t) by { assert s == p + w; }
      if t == [] {
        assert w + t == w && s + t == s;
      } else {
        assert Window(w + t) == (w + t)[|w + t| - Capacity..];
        assert Window(s + t) == (s + t)[|s + t| - Capacity..];
        SuffixOfAppend(p, w + t, Capacity);
      }
    }
  }

  /** The queue after any run of the producer holds the newest (at most two)
      frames among those queued before and those read successfully since. */
  lemma {:induction false} ProduceKeepsNewest<F>(q: seq<F>, script: seq<Read<F>>)
    requires |q| <= Capacity
    ensures Produce(q, script) == Window(q + Successes(script))
    decreases |script|
  {
    if |script| > 0 {
      var q1 := ProducerStep(q, script[0]);
      var head := if script[0].ok then [script[0].frame] else [];
      var rest := Successes(script[1..]);
      assert q1 == Window(q + head) by {
        if !script[0].ok { assert q + head == q; }
      }
      assert Produce(q, script) == Produce(q1, script[1..]);
      ProduceKeepsNewest(q1, script[1..]);
      WindowAppend(q + head, rest);
      var all := Successes(script);
      assert all == head + rest;
      assert q + all == (q + head) + rest by {
        SeqAssoc(q, head, rest);
      }
    }
  }

  /** The drain in `get_current_frame`: pop until the queue is empty and keep
      the last frame popped. */
  method Drain<F>(q: seq<F>) returns (img: Option<F>, rest: seq<F>)
    ensures rest == []
    ensures img.None? <==> q == []
    ensures img.Some? ==> img.value == q[|q| - 1]
  {
    img := None;
    rest := q;
    while |rest| > 0
      invariant rest == q[|q| - |rest|..]
      invariant |rest| == |q| ==> img.None?
      invariant |rest| < |q| ==> img == Some(q[|q| - |rest| - 1])
    {
      img := Some(rest[0]);
      rest := rest[1..];
    }
  }

  /** The consumer, draining after the producer has run from an empty queue,
      sees the frame of the last successful read, and nothing when no read
      succeeded. */
  lemma ConsumerSeesNewestFrame<F>(script: seq<Read<F>>)
    ensures var q := Produce([], script);
            var s := Successes(script);
            && (q == [] <==> s == [])
            && (q != [] ==> q[|q| - 1] == s[|s| - 1])
  {
    var s := Successes(script);
    ProduceKeepsNewest([], script);
    assert [] + s == s;
    var q := Window(s);
    if |s| > Capacity {
      assert q == s[|s| - Capacity..];
      assert q[|q| - 1] == s[|s| - 1];
    }
  }

  /** Number of reads `_update_frame_sequential` performs: up to and
      including the first successful one. */
  function FirstSuccess<F>(script: seq<Read<F>>): (i: nat)
    ensures i <= |script|
    ensures forall j :: 0 <= j < i ==> !script[j].ok
    ensures i < |script| ==> script[i].ok
  {
    if |script| == 0 || script[0].ok then 0 else 1 + FirstSuccess(script[1..])
  }

  /** `_update_frame_sequential` against a finite script of reads: the frame
      of the first successful read. The loop itself never gives up; `None`
      stands for a script that ran out before any read succeeded. */
  function ReadSequential<F>(script: seq<Read<F>>): (r: Option<F>)
    ensures r.None? <==> forall j :: 0 <= j < |script| ==> !script[j].ok
    ensures r.Some? ==> exists j :: 0 <= j < |script| && script[j].ok && r.value == script[j].frame &&
                                    forall k :: 0 <= k < j ==> !script[k].ok
  {
    var i := FirstSuccess(script);
    if i < |script| then Some(script[i].frame) else None
  }

  /** The camera wrapper's state. `running` is the shared `is_running` flag,
      which only exists in non-sequential mode; `started` records that the
      producer process was launched. */
  datatype Webcam<F> = Webcam(sequential: bool, running: Option<int>, started: bool, queue: seq<F>)

  /** `__init__`: the flag (set to 1) and the empty queue exist only in
      non-sequential mode. */
  function Init<F>(sequential: bool): (w: Webcam<F>)
    ensures w.sequential == sequential && !w.started && w.queue == []
    ensures w.running.Some? <==> !sequential
    ensures w.running.Some? ==> w.running.value == 1
  {
    Webcam(sequential, if sequential then None else Some(1), false, [])
  }

  /** The producer loop is live: launched, and the flag still reads 1. */
  predicate ProducerRuns<F>(w: Webcam<F>)
  {
    w.started && w.running == Some(1)
  }

  /** `start`: launches the producer process in non-sequential mode only.
      A process can be started once: a second `start` raises. */
  function Start<F>(w: Webcam<F>): (r: Result<Webcam<F>>)
    ensures r.Err? <==> !w.sequential && w.started
    ensures r.Err? ==> r.message == "AssertionError"
    ensures r.Ok? ==> (r.value.started <==> w.started || !w.sequential)
    ensures r.Ok? ==> r.value.sequential == w.sequential && r.value.running == w.running && r.value.queue == w.queue
  {
    if w.sequential then Ok(w)
    else if w.started then Err("AssertionError")
    else Ok(w.(started := true))
  }

  /** `quit`: sets the flag to 0 and joins the producer. A sequential webcam
      has no flag, so the attribute lookup raises; joining a producer that
      was never started raises as well. */
  function Quit<F>(w: Webcam<F>): (r: Result<Webcam<F>>)
    ensures r.Err? <==> w.running.None? || !w.started
    ensures r.Err? && w.running.None? ==> r.message == "AttributeError"
    ensures r.Err? && w.running.Some? ==> r.message == "AssertionError"
    ensures r.Ok? ==> r.value.running == Some(0) && r.value.started == w.started && r.value.queue == w.queue
    ensures r.Ok? ==> r.value == w.(running := Some(0))
    ensures r.Ok? ==> !ProducerRuns(r.value)
  {
    if w.running.None? then Err("AttributeError")
    else if !w.started then Err("AssertionError")
    else Ok(w.(running := Some(0)))
  }

  /** A producer iteration: it reads only while the flag is 1. */
  function ProducerTick<F>(w: Webcam<F>, read: Read<F>): (r: Webcam<F>)
    requires |w.queue| <= Capacity
    ensures |r.queue| <= Capacity
    ensures !ProducerRuns(w) ==> r == w
    ensures ProducerRuns(w) ==> r == w.(queue := ProducerStep(w.queue, read))
  {
    if ProducerRuns(w) then w.(queue := ProducerStep(w.queue, read)) else w
  }

  /** Only a started non-sequential webcam runs a producer; after `quit` no
      read reaches its queue any more; starting it twice raises, and so does
      quitting before starting. */
  lemma ProducerLifecycle<F>(read: Read<F>)
    ensures Start(Init<F>(true)) == Ok(Init<F>(true)) && !ProducerRuns(Init<F>(true))
    ensures var s := Start(Init<F>(false));
            && s.Ok? && ProducerRuns(s.value)
            && Start(s.value).Err?
            && var q := Quit(s.value);
               q.Ok? && ProducerTick(q.value, read) == q.value
    ensures Quit(Init<F>(true)).Err? && Quit(Init<F>(false)).Err?
  {
  }
}
