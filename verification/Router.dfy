/** The 5-port router: per-color input FIFOs, per-(direction, color) output FIFOs, lossless backpressure. */
module Routers {
  import opened Wavelets
  import opened Sums

  type Queue = seq<Wavelet>

  datatype ColorConfig = ColorConfig(color: Color, rx: Dir, tx: DirMask)

  // ----- Counting buffered wavelets -----

  ghost function Lens(qs: seq<Queue>): (s: seq<nat>)
    ensures |s| == |qs|
  {
    seq(|qs|, i requires 0 <= i < |qs| => |qs[i]|)
  }

  ghost function Held(qs: seq<Queue>): nat {
    Sum(Lens(qs))
  }

  ghost function HeldPerDir(qss: seq<seq<Queue>>): seq<nat> {
    seq(|qss|, d requires 0 <= d < |qss| => Held(qss[d]))
  }

  lemma HeldUpdate(qs: seq<Queue>, c: nat, q: Queue)
    requires c < |qs|
    ensures Held(qs[c := q]) == Held(qs) - |qs[c]| + |q|
  {
    assert Lens(qs[c := q]) == Lens(qs)[c := |q|];
    SumUpdate(Lens(qs), c, |q|);
  }

  /** The contents of a router as a value; every operation below is specified on it. */
  datatype RouterState = RouterState(
    inVc: seq<Queue>,
    outVc: seq<seq<Queue>>,
    config: seq<Option<ColorConfig>>)
  {
    ghost predicate Shaped() {
      && |inVc| == NUM_ROUTABLE
      && |outVc| == NUM_DIRS
      && (forall d | 0 <= d < NUM_DIRS :: |outVc[d]| == NUM_ROUTABLE)
      && |config| == NUM_ROUTABLE
    }

    // No virtual channel ever holds more than VC_DEPTH wavelets.
    ghost predicate Valid() {
      && Shaped()
      && (forall c | 0 <= c < NUM_ROUTABLE :: |inVc[c]| <= VC_DEPTH)
      && (forall d, c | 0 <= d < NUM_DIRS && 0 <= c < NUM_ROUTABLE :: |outVc[d][c]| <= VC_DEPTH)
    }

    // Total wavelets in the input and output channels.
    ghost function Buffered(): nat {
      Held(inVc) + Sum(HeldPerDir(outVc))
    }

    ghost predicate HasRoom(c: Color, dirs: DirMask)
      requires Shaped() && Routable(c)
    {
      forall d | d in dirs :: |outVc[d][c]| < VC_DEPTH
    }

    ghost function PushOut(c: Color, dirs: DirMask, w: Wavelet): (r: RouterState)
      requires Shaped() && Routable(c)
      ensures r.Shaped()
      ensures Valid() && HasRoom(c, dirs) ==> r.Valid()
    {
      this.(outVc := seq(NUM_DIRS, d requires 0 <= d < NUM_DIRS && Shaped() =>
        if d in dirs then outVc[d][c := outVc[d][c] + [w]] else outVc[d]))
    }

    ghost predicate TxAccepts(c: Color, dirs: DirMask)
      requires Shaped()
    {
      Routable(c) && dirs != {} && HasRoom(c, dirs)
    }

    // All-or-nothing multicast.
    ghost function TxSpec(c: Color, dirs: DirMask, w: Wavelet): (r: RouterState)
      requires Shaped()
      ensures r.Shaped()
      ensures Valid() ==> r.Valid()
    {
      if TxAccepts(c, dirs) then PushOut(c, dirs, w) else this
    }

    ghost predicate RxAccepts(c: Color)
      requires Shaped()
    {
      Routable(c) && |inVc[c]| < VC_DEPTH
    }

    ghost function RxSpec(c: Color, w: Wavelet): (r: RouterState)
      requires Shaped()
      ensures r.Shaped()
      ensures Valid() ==> r.Valid()
    {
      if RxAccepts(c) then this.(inVc := inVc[c := inVc[c] + [w]]) else this
    }

    ghost function PopInSpec(c: Color): (r: RouterState)
      requires Shaped()
      ensures r.Shaped()
      ensures Valid() ==> r.Valid()
    {
      if Routable(c) && inVc[c] != [] then this.(inVc := inVc[c := inVc[c][1..]]) else this
    }

    ghost function PopOutSpec(d: Dir, c: Color): (r: RouterState)
      requires Shaped()
      ensures r.Shaped()
      ensures Valid() ==> r.Valid()
    {
      if Routable(c) && outVc[d][c] != [] then this.(outVc := outVc[d := outVc[d][c := outVc[d][c][1..]]]) else this
    }

    // The wavelet at the head of color c's input queue may be re-emitted now.
    ghost predicate CanForward(c: Color)
      requires Shaped()
    {
      && Routable(c)
      && config[c].Some?
      && config[c].value.tx != {}
      && inVc[c] != []
      && HasRoom(c, config[c].value.tx)
    }

    ghost function ForwardOne(c: Color): (r: RouterState)
      requires Shaped() && CanForward(c)
      ensures r.Shaped()
      ensures Valid() ==> r.Valid()
    {
      PopInSpec(c).PushOut(c, config[c].value.tx, inVc[c][0])
    }

    // Drain color c into its transmit set until the input empties or an output fills.
    ghost function ForwardColor(c: Color): (r: RouterState)
      requires Shaped() && Routable(c)
      ensures r.Shaped()
      ensures Valid() ==> r.Valid()
      ensures r.config == config
      decreases |inVc[c]|
    {
      if CanForward(c) then ForwardOne(c).ForwardColor(c) else this
    }

    ghost function ForwardFrom(c: nat): (r: RouterState)
      requires Shaped() && c <= NUM_ROUTABLE
      ensures r.Shaped()
      ensures Valid() ==> r.Valid()
      ensures r.config == config
      decreases NUM_ROUTABLE - c
    {
      if c == NUM_ROUTABLE then this else ForwardColor(c).ForwardFrom(c + 1)
    }

    ghost function ForwardAll(): (r: RouterState)
      requires Shaped()
      ensures r.Shaped()
      ensures Valid() ==> r.Valid()
      ensures r.config == config
    {
      ForwardFrom(0)
    }
  }

  ghost function Empty(): (r: RouterState)
    ensures r.Valid()
  {
    RouterState(seq(NUM_ROUTABLE, _ => []), seq(NUM_DIRS, _ => seq(NUM_ROUTABLE, _ => [])), seq(NUM_ROUTABLE, _ => None))
  }

  class Router {
    var inVc: seq<Queue>
    var outVc: seq<seq<Queue>>
    var config: seq<Option<ColorConfig>>

    ghost function State(): RouterState
      reads this
    {
      RouterState(inVc, outVc, config)
    }

    ghost predicate Valid()
      reads this
    {
      State().Valid()
    }

    constructor ()
      ensures Valid() && State() == Empty()
    {
      inVc := seq(NUM_ROUTABLE, _ => []);
      outVc := seq(NUM_DIRS, _ => seq(NUM_ROUTABLE, _ => []));
      config := seq(NUM_ROUTABLE, _ => None);
    }

    method SetColorConfig(cfg: ColorConfig) returns (ok: bool)
      requires Valid()
      modifies this
      ensures Valid()
      ensures ok == Routable(cfg.color)
      ensures State() == if ok then old(State()).(config := old(config)[cfg.color := Some(cfg)]) else old(State())
    {
      if !Routable(cfg.color) {
        return false;
      }
      config := config[cfg.color := Some(cfg)];
      return true;
    }

    // True iff every output channel named by `dirs` has a free slot.
    method RoomOn(c: Color, dirs: DirMask) returns (room: bool)
      requires Valid() && Routable(c)
      ensures room == State().HasRoom(c, dirs)
    {
      room := true;
      for d := 0 to NUM_DIRS
        invariant room <==> forall e | e in dirs && e < d :: |outVc[e][c]| < VC_DEPTH
      {
        if d in dirs && |outVc[d][c]| >= VC_DEPTH {
          room := false;
        }
      }
    }

    // Enqueue `w` on every output channel named by `dirs`, in ascending order.
    method PushOut(c: Color, dirs: DirMask, w: Wavelet)
      requires Valid() && Routable(c) && State().HasRoom(c, dirs)
      modifies this`outVc
      ensures Valid() && State() == old(State()).PushOut(c, dirs, w)
    {
      ghost var before := outVc;
      for d := 0 to NUM_DIRS
        invariant |outVc| == NUM_DIRS
        invariant forall e | 0 <= e < NUM_DIRS ::
          outVc[e] == if e < d && e in dirs then before[e][c := before[e][c] + [w]] else before[e]
      {
        if d in dirs {
          outVc := outVc[d := outVc[d][c := outVc[d][c] + [w]]];
        }
      }
    }

    method Tx(c: Color, dirs: DirMask, w: Wavelet) returns (ok: bool)
      requires Valid()
      modifies this`outVc
      ensures Valid()
      ensures ok == old(State()).TxAccepts(c, dirs)
      ensures State() == old(State()).TxSpec(c, dirs, w)
    {
      if !Routable(c) || dirs == {} {
        return false;
      }
      var room := RoomOn(c, dirs);
      if !room {
        return false;
      }
      PushOut(c, dirs, w);
      return true;
    }

    method Rx(from: Dir, c: Color, w: Wavelet) returns (ok: bool)
      requires Valid()
      modifies this`inVc
      ensures Valid()
      ensures ok == old(State()).RxAccepts(c)
      ensures State() == old(State()).RxSpec(c, w)
    {
      if !Routable(c) || |inVc[c]| >= VC_DEPTH {
        return false;
      }
      inVc := inVc[c := inVc[c] + [w]];
      return true;
    }

    function InputSize(c: Color): (n: nat)
      requires Valid()
      reads this
      ensures n <= VC_DEPTH
    {
      if Routable(c) then |inVc[c]| else 0
    }

    function OutputSize(d: Dir, c: Color): (n: nat)
      requires Valid()
      reads this
      ensures n <= VC_DEPTH
    {
      if Routable(c) then |outVc[d][c]| else 0
    }

    function PeekOutput(d: Dir, c: Color): Option<Wavelet>
      requires Valid()
      reads this
    {
      if Routable(c) && outVc[d][c] != [] then Some(outVc[d][c][0]) else None
    }

    method PopInput(c: Color) returns (w: Option<Wavelet>)
      requires Valid()
      modifies this`inVc
      ensures Valid() && State() == old(State()).PopInSpec(c)
      ensures w == if Routable(c) && old(inVc)[c] != [] then Some(old(inVc)[c][0]) else None
    {
      if !Routable(c) || inVc[c] == [] {
        return None;
      }
      w := Some(inVc[c][0]);
      inVc := inVc[c := inVc[c][1..]];
    }

    method PopOutput(d: Dir, c: Color) returns (w: Option<Wavelet>)
      requires Valid()
      modifies this`outVc
      ensures Valid() && State() == old(State()).PopOutSpec(d, c)
      ensures w == if Routable(c) && old(outVc)[d][c] != [] then Some(old(outVc)[d][c][0]) else None
    {
      if !Routable(c) || outVc[d][c] == [] {
        return None;
      }
      w := Some(outVc[d][c][0]);
      outVc := outVc[d := outVc[d][c := outVc[d][c][1..]]];
    }

    method Buffered() returns (n: nat)
      requires Valid()
      ensures n == State().Buffered()
    {
      ghost var perDir := HeldPerDir(outVc);
      var out: nat := 0;
      for d := 0 to NUM_DIRS
        invariant out == Sum(perDir[..d])
      {
        ghost var lens := Lens(outVc[d]);
        ghost var before := out;
        for id := 0 to NUM_ROUTABLE
          invariant out == before + Sum(lens[..id])
        {
          assert lens[..id + 1][..id] == lens[..id];
          out := out + |outVc[d][id]|;
        }
        assert lens[..NUM_ROUTABLE] == lens;
        assert perDir[..d + 1][..d] == perDir[..d];
      }
      assert perDir[..NUM_DIRS] == perDir;
      n := out;
      ghost var lens := Lens(inVc);
      for id := 0 to NUM_ROUTABLE
        invariant n == out + Sum(lens[..id])
      {
        assert lens[..id + 1][..id] == lens[..id];
        n := n + |inVc[id]|;
      }
      assert lens[..NUM_ROUTABLE] == lens;
    }

    // Drain one color through its configuration while every target has room.
    method ForwardColor(id: Color) returns (forwarded: nat)
      requires Valid() && Routable(id) && config[id].Some? && config[id].value.tx != {}
      modifies this
      ensures Valid() && State() == old(State()).ForwardColor(id)
      ensures Held(inVc) + forwarded == old(Held(inVc))
    {
      var tx := config[id].value.tx;
      forwarded := 0;
      var room := RoomOn(id, tx);
      while inVc[id] != [] && room
        invariant Valid() && config == old(config)
        invariant State().ForwardColor(id) == old(State()).ForwardColor(id)
        invariant room == State().HasRoom(id, tx)
        invariant Held(inVc) + forwarded == old(Held(inVc))
        decreases |inVc[id]|
      {
        assert State().CanForward(id);
        HeldUpdate(inVc, id, inVc[id][1..]);
        var head := PopInput(id);
        PushOut(id, tx, head.value);
        forwarded := forwarded + 1;
        room := RoomOn(id, tx);
      }
    }

    method ApplyForwarding() returns (forwarded: nat)
      requires Valid()
      modifies this
      ensures Valid() && State() == old(State()).ForwardAll()
      ensures Held(inVc) + forwarded == old(Held(inVc))
    {
      forwarded := 0;
      for id := 0 to NUM_ROUTABLE
        invariant Valid() && State().ForwardFrom(id) == old(State()).ForwardAll()
        invariant Held(inVc) + forwarded == old(Held(inVc))
      {
        if config[id].Some? && config[id].value.tx != {} {
          var n := ForwardColor(id);
          forwarded := forwarded + n;
        }
      }
    }
  }

  // An output channel takes four wavelets and refuses the fifth, whatever the other channels hold.
  method FillChannel(r: Router, c: Color, d: Dir, w: Wavelet) returns (first: bool, second: bool, third: bool, fourth: bool, fifth: bool)
    requires r.Valid() && c < 24 && r.outVc[d][c] == []
    modifies r`outVc
    ensures r.Valid() && first && second && third && fourth && !fifth && r.outVc[d][c] == [w, w, w, w]
  {
    first := r.Tx(c, {d}, w);
    assert r.outVc[d][c] == [w];
    second := r.Tx(c, {d}, w);
    assert r.outVc[d][c] == [w, w];
    third := r.Tx(c, {d}, w);
    assert r.outVc[d][c] == [w, w, w];
    fourth := r.Tx(c, {d}, w);
    assert r.outVc[d][c] == [w, w, w, w];
    fifth := r.Tx(c, {d}, w);
  }
}
