// The walk shared by the two MQTT clients' state reports: a fixed list of
// groups taken in order, a test deciding whether a group is published, and
// a record applied to the last-sent values when that publish succeeds.
// It is stated once over any groups, test and record.

module ReportWalk {

  /** Recording a group never changes the test of a group that comes after it in `gs`. */
  ghost predicate LaterUnaffected<G(!new), S(!new)>(gs: seq<G>, test: (G, S) -> bool, rec: (G, S) -> S)
  {
    forall j, i, s {:trigger test(gs[i], rec(gs[j], s))} ::
      0 <= j < i < |gs| ==> test(gs[i], rec(gs[j], s)) == test(gs[i], s)
  }

  /** The groups of `gs` whose test holds against `s`, in order. */
  function Want<G(==,!new), S(!new)>(gs: seq<G>, test: (G, S) -> bool, s: S): (ws: seq<G>)
    ensures |ws| <= |gs|
    ensures forall g :: g in ws <==> g in gs && test(g, s)
  {
    if gs == [] then []
    else (if test(gs[0], s) then [gs[0]] else []) + Want(gs[1..], test, s)
  }

  /**
   * The walk over `gs`: each group whose test holds is published (`ok`
   * answers whether that publish succeeds) and recorded on success. With
   * `stop` the walk ends at the first failed publish; without it, later
   * groups go on. The result is the new record and the publishes made.
   */
  function Walk<G(==,!new), S(!new)>(gs: seq<G>, stop: bool, test: (G, S) -> bool, rec: (G, S) -> S, s: S, ok: G -> bool)
    : (r: (S, seq<G>))
    ensures forall g :: g in r.1 ==> g in gs
  {
    if gs == [] then (s, [])
    else
      var g := gs[0];
      if test(g, s) then
        if ok(g) then
          var rest := Walk(gs[1..], stop, test, rec, rec(g, s), ok);
          (rest.0, [g] + rest.1)
        else if stop then (s, [g])
        else
          var rest := Walk(gs[1..], stop, test, rec, s, ok);
          (rest.0, [g] + rest.1)
      else Walk(gs[1..], stop, test, rec, s, ok)
  }

  /** One group of the walk, as a loop over `gs` takes it: publish, record on success, go on. */
  lemma WalkStep<G(!new), S(!new)>(gs: seq<G>, i: nat, stop: bool, test: (G, S) -> bool, rec: (G, S) -> S, s: S, ok: G -> bool)
    requires i < |gs| && !(stop && test(gs[i], s) && !ok(gs[i]))
    ensures var s1 := if test(gs[i], s) && ok(gs[i]) then rec(gs[i], s) else s;
      var rest := Walk(gs[i + 1..], stop, test, rec, s1, ok);
      Walk(gs[i..], stop, test, rec, s, ok) == (rest.0, (if test(gs[i], s) then [gs[i]] else []) + rest.1)
  {
    assert gs[i..][0] == gs[i] && gs[i..][1..] == gs[i + 1..];
    if !test(gs[i], s) {
      var rest := Walk(gs[i + 1..], stop, test, rec, s, ok);
      assert [] + rest.1 == rest.1;
    }
  }

  /** With `stop`, a failed publish ends the walk there, the record untouched. */
  lemma WalkStopsHere<G(!new), S(!new)>(gs: seq<G>, i: nat, test: (G, S) -> bool, rec: (G, S) -> S, s: S, ok: G -> bool)
    requires i < |gs| && test(gs[i], s) && !ok(gs[i])
    ensures Walk(gs[i..], true, test, rec, s, ok) == (s, [gs[i]])
  {
    assert gs[i..][0] == gs[i];
  }

  /**
   * The walk as the reports run it: for each group in order, publish it if
   * its test holds, record it when the publish succeeds and, with `stop`,
   * return at the first failure.
   */
  method Run<G(==,!new), S(!new)>(gs: seq<G>, stop: bool, test: (G, S) -> bool, rec: (G, S) -> S, sent: S, ok: G -> bool)
    returns (s: S, published: seq<G>)
    ensures (s, published) == Walk(gs, stop, test, rec, sent, ok)
  {
    s, published := sent, [];
    assert gs[0..] == gs;
    assert [] + Walk(gs, stop, test, rec, s, ok).1 == Walk(gs, stop, test, rec, s, ok).1;
    for i := 0 to |gs|
      invariant Walk(gs, stop, test, rec, sent, ok)
        == (Walk(gs[i..], stop, test, rec, s, ok).0, published + Walk(gs[i..], stop, test, rec, s, ok).1)
    {
      var g := gs[i];
      ghost var before, done := s, published;
      if test(g, s) {
        published := published + [g];
        if !ok(g) && stop {
          WalkStopsHere(gs, i, test, rec, before, ok);
          return;
        }
        if ok(g) {
          s := rec(g, s);
        }
      }
      WalkStep(gs, i, stop, test, rec, before, ok);
      ghost var rest := Walk(gs[i + 1..], stop, test, rec, s, ok).1;
      assert done + ((if test(g, before) then [g] else []) + rest) == published + rest;
    }
    assert gs[|gs|..] == [];
    assert published + [] == published;
  }

  lemma TailUnaffected<G(!new), S(!new)>(gs: seq<G>, test: (G, S) -> bool, rec: (G, S) -> S)
    requires gs != [] && LaterUnaffected(gs, test, rec)
    ensures LaterUnaffected(gs[1..], test, rec)
  {
    var t := gs[1..];
    forall j, i, s | 0 <= j < i < |t| ensures test(t[i], rec(t[j], s)) == test(t[i], s) {
      assert t[i] == gs[i + 1] && t[j] == gs[j + 1];
      assert test(gs[i + 1], rec(gs[j + 1], s)) == test(gs[i + 1], s);
    }
  }

  /** Recording group `gs[0]` leaves the wanted groups of `gs[i..]` alone. */
  lemma {:induction false} WantUnaffected<G(!new), S(!new)>(gs: seq<G>, i: nat, test: (G, S) -> bool, rec: (G, S) -> S, s: S)
    requires 0 < i <= |gs| && LaterUnaffected(gs, test, rec)
    ensures Want(gs[i..], test, rec(gs[0], s)) == Want(gs[i..], test, s)
    decreases |gs| - i
  {
    if i < |gs| {
      assert gs[i..][0] == gs[i] && gs[i..][1..] == gs[i + 1..];
      assert test(gs[i], rec(gs[0], s)) == test(gs[i], s);
      WantUnaffected(gs, i + 1, test, rec, s);
    }
  }

  /** Without `stop`, the walk publishes exactly the groups wanted at its start, whatever the publishes answer. */
  lemma {:induction false} WalkOnPublishesWanted<G(!new), S(!new)>(gs: seq<G>, test: (G, S) -> bool, rec: (G, S) -> S, s: S, ok: G -> bool)
    requires LaterUnaffected(gs, test, rec)
    ensures Walk(gs, false, test, rec, s, ok).1 == Want(gs, test, s)
  {
    if gs != [] {
      var g := gs[0];
      TailUnaffected(gs, test, rec);
      if test(g, s) && ok(g) {
        WantUnaffected(gs, 1, test, rec, s);
        WalkOnPublishesWanted(gs[1..], test, rec, rec(g, s), ok);
      } else {
        WalkOnPublishesWanted(gs[1..], test, rec, s, ok);
      }
    }
  }

  /**
   * With `stop`, the walk publishes the wanted groups in order up to and
   * including the first that fails: every publish but the last succeeded,
   * and it stops short only on a failure.
   */
  lemma {:induction false} WalkStopsAtFailure<G(!new), S(!new)>(gs: seq<G>, test: (G, S) -> bool, rec: (G, S) -> S, s: S, ok: G -> bool)
    requires LaterUnaffected(gs, test, rec)
    ensures StoppedAtFailure(Walk(gs, true, test, rec, s, ok).1, Want(gs, test, s), ok)
  {
    if gs != [] {
      var g := gs[0];
      var p := Walk(gs, true, test, rec, s, ok).1;
      TailUnaffected(gs, test, rec);
      if test(g, s) {
        var w1 := Want(gs[1..], test, s);
        assert Want(gs, test, s) == [g] + w1;
        if ok(g) {
          var s1 := rec(g, s);
          WantUnaffected(gs, 1, test, rec, s);
          WalkStopsAtFailure(gs[1..], test, rec, s1, ok);
          var p1 := Walk(gs[1..], true, test, rec, s1, ok).1;
          assert p == [g] + p1;
          assert Want(gs[1..], test, s1) == w1;
          PrependSucceeded(g, p1, w1, ok);
        } else {
          assert p == [g];
        }
      } else {
        WalkStopsAtFailure(gs[1..], test, rec, s, ok);
      }
    }
  }

  /**
   * Publishes `p` of a walk that wanted `w`: a prefix of `w` in which every
   * publish but the last succeeded, and that stops short only on a failure.
   */
  ghost predicate StoppedAtFailure<G>(p: seq<G>, w: seq<G>, ok: G -> bool)
  {
    && p <= w
    && (forall k :: 0 <= k < |p| - 1 ==> ok(p[k]))
    && (|p| < |w| ==> p != [] && !ok(p[|p| - 1]))
  }

  /** Putting a group whose publish succeeded in front of both keeps that shape. */
  lemma PrependSucceeded<G>(g: G, p: seq<G>, w: seq<G>, ok: G -> bool)
    requires ok(g) && StoppedAtFailure(p, w, ok)
    ensures StoppedAtFailure([g] + p, [g] + w, ok)
  {
    var q := [g] + p;
    forall k | 0 <= k < |q| - 1 ensures ok(q[k]) {
      if k > 0 {
        assert q[k] == p[k - 1];
      }
    }
    if |p| < |w| {
      assert q[|q| - 1] == p[|p| - 1];
    }
  }

  /**
   * When every publish succeeds and `holds` is a per-group fact that a
   * failing test implies, that a record establishes and that records of
   * other groups keep, the walk ends with the fact holding for every group.
   */
  lemma {:induction false} WalkEstablishes<G(!new), S(!new)>(gs: seq<G>, stop: bool, test: (G, S) -> bool, rec: (G, S) -> S,
                                                 holds: (G, S) -> bool, s: S, ok: G -> bool)
    requires forall g :: ok(g)
    requires forall g, t :: !test(g, t) ==> holds(g, t)
    requires forall g, h, t :: holds(g, rec(g, t)) && (h != g ==> (holds(h, rec(g, t)) <==> holds(h, t)))
    requires forall g :: g in gs || holds(g, s)
    ensures forall g :: holds(g, Walk(gs, stop, test, rec, s, ok).0)
  {
    if gs != [] {
      var g0 := gs[0];
      var s1 := if test(g0, s) then rec(g0, s) else s;
      forall g ensures g in gs[1..] || holds(g, s1) {
        if g !in gs[1..] {
          assert holds(g0, s1);
          if g != g0 {
            assert g !in gs && holds(g, s);
          }
        }
      }
      WalkEstablishes(gs[1..], stop, test, rec, holds, s1, ok);
    }
  }

  lemma {:induction false} NothingWanted<G(!new), S(!new)>(gs: seq<G>, test: (G, S) -> bool, s: S)
    requires forall g :: !test(g, s)
    ensures Want(gs, test, s) == []
  {
    if gs != [] {
      NothingWanted(gs[1..], test, s);
    }
  }
}
