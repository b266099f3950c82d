/** upCompute, the panel's own integrator of the availability log
    (core/internal/monitor/page.go:148-158): its percentage is the server's, and its bar is a tiling
    of [0, 1] that shows the pointwise state. */
module Panel {
  import opened Options
  import opened Availability

  datatype Kind = NoData | Up | Down

  /** A position on the bar: num/den of its width. */
  datatype Fraction = Fraction(num: int, den: int)

  datatype Seg = Seg(a: Fraction, b: Fraction, kind: Kind)

  // ----- what a bar should be

  /** What the bar should show for second s. */
  ghost function KindAt(ev: Log, s: int): Kind {
    if ev == [] || s < ev[0].t then NoData else if StateAt(ev, s) then Up else Down
  }

  /** On a bar whose width is the window [from, till), the segment shows the state of its seconds. */
  ghost predicate Depicts(ev: Log, from: int, till: int, g: Seg) {
    && g.a.den == g.b.den == till - from
    && forall s :: g.a.num <= s - from < g.b.num ==> g.kind == KindAt(ev, s)
  }

  /** Consecutive segments touch, from position `from` to position `till`. */
  ghost predicate Chained(segs: seq<Seg>, from: Fraction, till: Fraction) {
    && (if segs == [] then from == till else segs[0].a == from && segs[|segs| - 1].b == till)
    && forall k :: 0 < k < |segs| ==> segs[k].a == segs[k - 1].b
  }

  ghost predicate Forwards(segs: seq<Seg>) {
    forall k :: 0 <= k < |segs| ==> segs[k].a.num <= segs[k].b.num
  }

  /** The segments cover a bar `span` wide once, in order, without gap or overlap. */
  ghost predicate Tiles(segs: seq<Seg>, span: int) {
    segs != [] && Chained(segs, Fraction(0, span), Fraction(span, span)) && Forwards(segs)
  }

  /** The total length of the up segments, times the common denominator. */
  ghost function UpLength(segs: seq<Seg>): int {
    if segs == [] then 0
    else
      var g := segs[|segs| - 1];
      UpLength(segs[..|segs| - 1]) + if g.kind == Up then g.b.num - g.a.num else 0
  }

  // ----- the loop

  /** The bar drawn up to second `cursor`. */
  ghost predicate BarTo(ev: Log, from: int, till: int, cursor: int, segs: seq<Seg>) {
    && Chained(segs, Fraction(0, till - from), Fraction(cursor - from, till - from))
    && forall k :: 0 <= k < |segs| ==> Depicts(ev, from, till, segs[k])
  }

  function Stretch(from: int, till: int, lo: int, hi: int, u: bool): Seg {
    Seg(Fraction(lo - from, till - from), Fraction(hi - from, till - from), if u then Up else Down)
  }

  /** The segment pushed for a stretch without events shows its state. */
  lemma BarPush(ev: Log, i: nat, from: int, till: int, cursor: int, next: int, segs: seq<Seg>)
    requires Sorted(ev) && 0 < i <= |ev| && BarTo(ev, from, till, cursor, segs)
    requires ev[i - 1].t <= cursor && (i < |ev| ==> next <= ev[i].t)
    ensures var all := segs + [Stretch(from, till, cursor, next, ev[i - 1].u)];
      && BarTo(ev, from, till, next, all)
      && (Forwards(segs) && cursor <= next ==> Forwards(all))
      && UpLength(all) == UpLength(segs) + if ev[i - 1].u then next - cursor else 0
  {
    var g := Stretch(from, till, cursor, next, ev[i - 1].u);
    forall s | cursor <= s < next ensures g.kind == KindAt(ev, s) {
      StateBetween(ev, i, s);
    }
    assert (segs + [g])[..|segs + [g]| - 1] == segs;
  }

  /** The stretch up to event i, in the count and on the bar. */
  lemma NextStretch(ev: Log, i: nat, from: int, till: int, ef: int, cursor: int, segs: seq<Seg>)
    requires Sorted(ev) && 0 < i < |ev| && BarTo(ev, from, till, cursor, segs) && Forwards(segs)
    requires ev[i - 1].t <= cursor && ef <= cursor <= ev[i].t
    ensures var all := segs + [Stretch(from, till, cursor, ev[i].t, ev[i - 1].u)];
      var up := if ev[i - 1].u then ev[i].t - cursor else 0;
      && BarTo(ev, from, till, ev[i].t, all) && Forwards(all)
      && UpLength(all) == UpLength(segs) + up
      && UpSeconds(ev, ef, ev[i].t) == UpSeconds(ev, ef, cursor) + up
  {
    Advance(ev, i, ef, cursor, ev[i].t);
    BarPush(ev, i, from, till, cursor, ev[i].t, segs);
  }

  function Percentage(up: int, cov: int): Option<real> {
    if cov > 0 then Some(up as real / cov as real * 100.0) else None
  }

  lemma PctOfCount(ev: Log, now: int, window: int, upDur: int)
    requires ev != []
    requires var ef := Max(now - window, ev[0].t); ef <= now ==> upDur == UpSeconds(ev, ef, now)
    ensures Percentage(upDur, now - Max(now - window, ev[0].t)) ==
      if Pct(ev, now, window) == -1.0 then None else Some(Pct(ev, now, window))
  {
    PctRange(ev, now, window);
  }

  /** What precedes the first event of the window. */
  method OpenBar(ev: Log, from: int, till: int, ef: int) returns (segs: seq<Seg>)
    requires ev != [] && from < till && ef == Max(from, ev[0].t)
    ensures BarTo(ev, from, till, ef, segs) && Forwards(segs) && UpLength(segs) == 0
  {
    segs := [];
    if ef > from {
      segs := [Seg(Fraction(0, till - from), Fraction(ef - from, till - from), NoData)];
      assert segs[..0] == [];
    }
  }

  /** Where the loop of upCompute stands: the bar is drawn up to `cursor`, which is where event i - 1 or the
      window's first second is. */
  ghost predicate DrawnTo(ev: Log, from: int, till: int, ef: int, i: nat, cursor: int, upDur: int, segs: seq<Seg>) {
    && 0 < i <= |ev| && cursor == Max(ef, ev[i - 1].t) && (if ef < till then cursor < till else cursor == ef)
    && upDur == UpSeconds(ev, ef, cursor) == UpLength(segs)
    && BarTo(ev, from, till, cursor, segs) && Forwards(segs)
  }

  lemma DrawnOneMore(ev: Log, from: int, till: int, ef: int, i: nat, cursor: int, upDur: int, segs: seq<Seg>)
    requires Sorted(ev) && DrawnTo(ev, from, till, ef, i, cursor, upDur, segs)
    requires i < |ev| && ef < ev[i].t < till
    ensures var u := ev[i - 1].u;
      DrawnTo(ev, from, till, ef, i + 1, ev[i].t, upDur + if u then ev[i].t - cursor else 0,
              segs + [Stretch(from, till, cursor, ev[i].t, u)])
  {
    NextStretch(ev, i, from, till, ef, cursor, segs);
  }

  /** The loop of upCompute: one segment for every event strictly inside the window. */
  method PushEvents(ev: Log, from: int, till: int, ef: int, st: bool, ghost n: nat, opening: seq<Seg>)
    returns (segs: seq<Seg>, cursor: int, cur: bool, upDur: int, ghost i: nat)
    requires Sorted(ev) && from < till && BarTo(ev, from, till, ef, opening) && Forwards(opening)
    requires 0 < n <= |ev| && ev[n - 1].t <= ef && (n < |ev| ==> ef < ev[n].t) && st == ev[n - 1].u
    requires UpLength(opening) == 0
    ensures DrawnTo(ev, from, till, ef, i, cursor, upDur, segs)
    ensures cur == ev[i - 1].u && (i < |ev| ==> till <= ev[i].t)
  {
    segs, cursor, cur, upDur, i := opening, ef, st, 0, n;
    for k := 0 to |ev|
      invariant i == Max(n, k) <= |ev| && DrawnTo(ev, from, till, ef, i, cursor, upDur, segs) && cur == ev[i - 1].u
    {
      var e := ev[k];
      if e.t <= ef {
        continue;
      }
      if e.t >= till {
        break;
      }
      DrawnOneMore(ev, from, till, ef, i, cursor, upDur, segs);
      segs := segs + [Stretch(from, till, cursor, e.t, cur)];
      if cur {
        upDur := upDur + e.t - cursor;
      }
      cursor, cur, i := e.t, e.u, k + 1;
    }
  }

  /** The percentage is the server's pointwise one over the same window (null for -1). The segments
      touch from 0 to 1 and each shows the state of its seconds; they run forwards, and so tile the
      bar, exactly when there is no event or the first one is not in the future. The up part of the
      bar, scaled to the window, is the number of up seconds. */
  method UpCompute(ev: Log, from: int, till: int) returns (pct: Option<real>, segs: seq<Seg>)
    requires Sorted(ev) && from < till
    ensures pct == if Pct(ev, till, till - from) == -1.0 then None else Some(Pct(ev, till, till - from))
    ensures segs != [] && Chained(segs, Fraction(0, till - from), Fraction(till - from, till - from))
    ensures Tiles(segs, till - from) <==> ev == [] || ev[0].t <= till
    ensures forall k :: 0 <= k < |segs| ==> Depicts(ev, from, till, segs[k])
    ensures ev != [] && ev[0].t <= till ==> UpLength(segs) == UpSeconds(ev, Max(from, ev[0].t), till)
  {
    if |ev| == 0 {
      return None, [Seg(Fraction(0, till - from), Fraction(till - from, till - from), NoData)];
    }
    var ef := from;
    if ev[0].t > ef {
      ef := ev[0].t;
    }
    var st, n := EnteringState(ev, ef);
    segs := OpenBar(ev, from, till, ef);
    var cursor, cur, upDur;
    ghost var i;
    segs, cursor, cur, upDur, i := PushEvents(ev, from, till, ef, st, n, segs);
    if ef <= till {
      Advance(ev, i, ef, cursor, till);
    }
    BarPush(ev, i, from, till, cursor, till, segs);
    segs := segs + [Stretch(from, till, cursor, till, cur)];
    if cur {
      upDur := upDur + till - cursor;
    }
    assert segs[|segs| - 1].a.num <= segs[|segs| - 1].b.num <==> ef <= till;
    pct := Percentage(upDur, till - ef);
    PctOfCount(ev, till, till - from, upDur);
  }

  /** The panel and the server give the same answer for every log, window and time. */
  method Agree(ev: Log, now: int, window: int) returns (server: real, panel: Option<real>)
    requires Sorted(ev) && window > 0
    ensures server == Pct(ev, now, window)
    ensures panel == if server == -1.0 then None else Some(server)
  {
    server := UptimePct(ev, now, window);
    var segs;
    panel, segs := UpCompute(ev, now - window, now);
  }
}
