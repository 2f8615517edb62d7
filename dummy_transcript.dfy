/** The no-crypto transcript: a fixed trusted state next to an append-only log. */
module DummyTranscript {
  import opened DummyEvolvement
  import opened DummyState

  class Transcript {
    const trustedState: State
    var log: seq<Evolvement>

    /** `new`: stores both as given, with no validation. */
    constructor (trustedState: State, log: seq<Evolvement>)
      ensures this.trustedState == trustedState && this.log == log
    {
      this.trustedState := trustedState;
      this.log := log;
    }

    /** `add_evolvement`: accepts any evolvement and appends it at the end of the log; the
        trusted state is not touched. */
    method AddEvolvement(e: Evolvement)
      modifies this`log
      ensures log == old(log) + [e]
      ensures |log| == |old(log)| + 1
    {
      log := log + [e];
    }

    /** `trusted_state`: a fresh copy of the trusted state. */
    method TrustedState() returns (s: State)
      ensures fresh(s) && s.members == trustedState.members
    {
      s := trustedState.Clone();
    }

    /** `log`: a copy of the log. */
    function Log(): (l: seq<Evolvement>)
      reads this
      ensures l == log
    {
      log
    }
  }

  /** `new(s, l)` followed by `add_evolvement` of each entry of `es` in turn leaves the log
      `l ++ es` and the trusted state `s` with its members as they were. */
  method NewThenAddAll(s: State, l: seq<Evolvement>, es: seq<Evolvement>)
    returns (t: Transcript)
    ensures fresh(t)
    ensures t.log == l + es
    ensures t.trustedState == s && s.members == old(s.members)
  {
    t := new Transcript(s, l);
    var i := 0;
    while i < |es|
      invariant 0 <= i <= |es|
      invariant t.log == l + es[..i]
      invariant t.trustedState == s && s.members == old(s.members)
    {
      t.AddEvolvement(es[i]);
      assert es[..i + 1] == es[..i] + [es[i]];
      i := i + 1;
    }
    assert es[..i] == es;
  }
}
