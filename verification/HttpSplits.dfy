/** Chunk boundaries and the HTTP parser: which inputs parse the same however
    they are cut, and a cut that shows the difference for every other input. */
module HttpSplits {
  import opened Text
  import opened HttpParser

  /** `parse` on one chunk after the other; an exception ends the run. */
  function Run(cfg: Config, o: Outcome, chunks: seq<string>): Outcome
    decreases |chunks|
  {
    if o.Failed? || chunks == [] then o
    else Run(cfg, Call(cfg, o.state, chunks[0]), chunks[1..])
  }

  ghost predicate SplitInsensitive(cfg: Config, d: string) {
    forall chunks {:trigger Run(cfg, Running(Fresh(cfg)), chunks)} :: Flatten(chunks) == d ==>
      Run(cfg, Running(Fresh(cfg)), chunks) == Call(cfg, Fresh(cfg), d)
  }

  /** No token that is accepted is longer than its limit, and the body does not
      run past the announced length. */
  predicate Clean(cfg: Config, s: State, d: string)
    decreases |d|
  {
    if d == "" || s.phase == Done then true
    else if s.phase == Body then s.read + |d| <= s.expected
    else match ByteStep(cfg, s, d[0])
      case None => true
      case Some(s') => (d[0] == Delim(s.phase) ==> |s.buf| <= Limit(s.phase)) && Clean(cfg, s', d[1..])
  }

  /** States between two calls of a clean run. */
  predicate Ready(s: State) {
    && (InToken(s.phase) ==> |s.buf| <= Limit(s.phase) && s.read == 0)
    && (s.phase == Body ==> s.read < s.expected)
  }

  /** The same without the size limit: states inside a call. */
  predicate Within(s: State) {
    (InToken(s.phase) ==> s.read == 0) && (s.phase == Body ==> s.read < s.expected)
  }

  // ------------------------------------------------------ clean inputs: any cut

  /** An overlong unfinished token fails sooner or later, with no further callback. */
  lemma {:induction false} OverLimitFails(cfg: Config, s: State, d: string)
    requires InToken(s.phase) && |s.buf| > Limit(s.phase) && Clean(cfg, s, d)
    ensures Call(cfg, s, d) == Failed(s.events, s.body)
    decreases |d|
  {
    if d != "" && d[0] != Delim(s.phase) {
      OverLimitFails(cfg, s.(buf := s.buf + [d[0]]), d[1..]);
    }
  }

  /** One cut changes nothing, and what follows it is clean again. */
  lemma {:induction false} CutOnce(cfg: Config, s: State, a: string, b: string)
    requires Within(s) && Clean(cfg, s, a + b)
    ensures match Call(cfg, s, a)
      case Failed(_, _) => Call(cfg, s, a + b) == Call(cfg, s, a)
      case Running(s') => Ready(s') && Clean(cfg, s', b) && Call(cfg, s', b) == Call(cfg, s, a + b)
    decreases |a|
  {
    if a == "" {
      assert a + b == b;
      if InToken(s.phase) && |s.buf| > Limit(s.phase) { OverLimitFails(cfg, s, b); }
    } else if InToken(s.phase) {
      assert (a + b)[1..] == a[1..] + b && (a + b)[0] == a[0];
      match ByteStep(cfg, s, a[0])
      case None =>
      case Some(s') => CutOnce(cfg, s', a[1..], b);
    } else {
      assert (s.body + a) + b == s.body + (a + b);
    }
  }

  lemma RunOne(cfg: Config, o: Outcome, b: string)
    ensures Run(cfg, o, [b]) == if o.Failed? then o else Call(cfg, o.state, b)
  {
    if o.Running? {
      assert Run(cfg, o, [b]) == Run(cfg, Call(cfg, o.state, b), [b][1..]);
    }
  }

  lemma {:induction false} CleanRun(cfg: Config, s: State, chunks: seq<string>)
    requires Ready(s) && Clean(cfg, s, Flatten(chunks))
    ensures Run(cfg, Running(s), chunks) == Call(cfg, s, Flatten(chunks))
    decreases |chunks|
  {
    if chunks != [] {
      CutOnce(cfg, s, chunks[0], Flatten(chunks[1..]));
      var o := Call(cfg, s, chunks[0]);
      if o.Running? { CleanRun(cfg, o.state, chunks[1..]); }
    }
  }

  // -------------------------------------------- other inputs: a cut that matters

  function EventsOf(o: Outcome): seq<Event> { if o.Running? then o.state.events else o.events }

  lemma {:induction false} EventsGrow(cfg: Config, s: State, d: string)
    ensures s.events <= EventsOf(Call(cfg, s, d))
    decreases |d|
  {
    if d != "" && InToken(s.phase) {
      match ByteStep(cfg, s, d[0])
      case None =>
      case Some(s') => EventsGrow(cfg, s', d[1..]);
    }
  }

  lemma {:induction false} TellingCut(cfg: Config, s: State, d: string) returns (k: nat)
    requires Within(s) && !Clean(cfg, s, d)
    ensures k <= |d|
    ensures Run(cfg, Call(cfg, s, d[..k]), [d[k..]]) != Call(cfg, s, d)
    decreases |d|
  {
    if s.phase == Body {
      k := s.expected - s.read;
      RunOne(cfg, Call(cfg, s, d[..k]), d[k..]);
    } else {
      var s' := ByteStep(cfg, s, d[0]).value;
      if d[0] == Delim(s.phase) && |s.buf| > Limit(s.phase) {
        k := 0;
        EventsGrow(cfg, s', d[1..]);
        assert d[..0] == "";
      } else {
        var j := TellingCut(cfg, s', d[1..]);
        k := j + 1;
        assert d[..k][1..] == d[1..][..j] && d[k..] == d[1..][j..];
      }
    }
  }

  // --------------------------------------------------------------- the theorem

  lemma FlattenTwo(a: string, b: string)
    ensures Flatten([a, b]) == a + b
  {
    assert [a, b][1..] == [b] && [b][1..] == [];
    assert Flatten([b]) == b + Flatten([]) == b;
  }

  /** Chunk boundaries are invisible exactly for clean inputs. */
  lemma SplitsDoNotMatterIff(cfg: Config, d: string)
    ensures SplitInsensitive(cfg, d) <==> Clean(cfg, Fresh(cfg), d)
  {
    var s := Fresh(cfg);
    if Clean(cfg, s, d) {
      forall chunks | Flatten(chunks) == d
        ensures Run(cfg, Running(s), chunks) == Call(cfg, s, d)
      {
        CleanRun(cfg, s, chunks);
      }
    } else {
      var k := TellingCut(cfg, s, d);
      var cut := [d[..k], d[k..]];
      FlattenTwo(d[..k], d[k..]);
      assert d[..k] + d[k..] == d;
      assert Run(cfg, Running(s), cut) == Run(cfg, Call(cfg, s, d[..k]), cut[1..]);
      assert cut[1..] == [d[k..]];
    }
  }

  /** Feeding a clean input one byte at a time, or in any two ways, is the same,
      and the end of the stream is judged the same. */
  lemma AnyTwoCutsAgree(cfg: Config, xs: seq<string>, ys: seq<string>)
    requires Flatten(xs) == Flatten(ys) && Clean(cfg, Fresh(cfg), Flatten(xs))
    ensures Run(cfg, Running(Fresh(cfg)), xs) == Run(cfg, Running(Fresh(cfg)), ys)
    ensures Eof(Run(cfg, Running(Fresh(cfg)), xs)) == Eof(Run(cfg, Running(Fresh(cfg)), ys))
  {
    CleanRun(cfg, Fresh(cfg), xs);
    CleanRun(cfg, Fresh(cfg), ys);
  }
}
