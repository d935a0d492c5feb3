/**
 The deferred-decision response writer of internal/compress/compress.go: it holds back the header and
 the first bytes until it knows whether to encode. `log` is everything it does to the connection
 beneath it and to the pooled encoder. The response headers are looked at when the status is decided
 and are a parameter here.
 */
module Compress {
  import opened Ascii
  import opened Ordered

  datatype Out =
    | Inform(status: int)
    | Head(status: int)
    | Raw(bytes: Text)
    | Acquire
    | Encode(bytes: Text)
    | FlushEncoder
    | Release
    | FlushRaw

  /**
   What a log amounts to. `ordered`: every body byte came after the header, every encoded one while
   an encoder was held.
   */
  datatype Effect = Effect(heads: seq<int>, body: Text, raw: bool, encoded: bool, acquired: nat, released: nat,
                           ordered: bool)

  function Extend(s: Effect, o: Out): Effect {
    match o
    case Head(status) => s.(heads := s.heads + [status], ordered := s.ordered && s.body == [])
    case Raw(p) => s.(body := s.body + p, raw := true, ordered := s.ordered && s.heads != [])
    case Acquire => s.(acquired := s.acquired + 1)
    case Encode(p) =>
      s.(body := s.body + p, encoded := true, ordered := s.ordered && s.heads != [] && s.acquired == s.released + 1)
    case Release => s.(released := s.released + 1)
    case _ => s
  }

  const NOTHING := Effect([], [], false, false, 0, 0, true)

  /** One header, then the body. */
  function Sent(status: int, body: Text, raw: bool, encoded: bool, acquired: nat, released: nat): Effect {
    Effect([status], body, raw, encoded, acquired, released, true)
  }

  function EffectOf(log: seq<Out>): Effect {
    if log == [] then NOTHING else Extend(EffectOf(log[..|log| - 1]), log[|log| - 1])
  }

  lemma EffectNext(log: seq<Out>, o: Out)
    ensures EffectOf(log + [o]) == Extend(EffectOf(log), o)
  {
    assert (log + [o])[..|log|] == log;
  }

  predicate Informational(status: int) {
    100 <= status < 200 && status != 101
  }

  predicate Bodiless(status: int) {
    status < 200 || status == 204 || status == 304
  }

  /** The response headers that bear on the decision, and whether the content type is one to encode. */
  datatype Headers = Headers(encoding: string, range: string, cacheControl: string, compressible: bool)

  /** A directive of the list forbids transforming the body. */
  predicate NoTransform(cacheControl: string) {
    exists part :: part in Split(cacheControl, ',') && LowerAll(Trimmed(part)) == "no-transform"
  }

  /** Encoded already, a range of the plain representation, not to be transformed, or not worth it. */
  predicate Forbids(h: Headers) {
    h.encoding != "" || h.range != "" || NoTransform(h.cacheControl) || !h.compressible
  }

  method HasNoTransform(cacheControl: string) returns (fixed: bool)
    ensures fixed == NoTransform(cacheControl)
  {
    var parts := Split(cacheControl, ',');
    for i := 0 to |parts|
      invariant forall j | 0 <= j < i :: LowerAll(Trimmed(parts[j])) != "no-transform"
    {
      if LowerAll(Trimmed(parts[i])) == "no-transform" {
        assert parts[i] in parts;
        return true;
      }
    }
    return false;
  }

  class ResponseWriter {
    const minSize: nat
    var status: int
    var wroteHeader: bool
    var buf: Text
    var skip: bool
    var compressing: bool
    var held: bool
    var log: seq<Out>
    // Everything the handler has written, whether it has flushed, and whether encoding was
    // forbidden when the status was decided.
    ghost var written: Text
    ghost var flushed: bool
    ghost var forbade: bool

    constructor (minSize: nat)
      requires minSize > 0
      ensures this.minSize == minSize && !wroteHeader && !flushed && !forbade && log == [] && written == []
      ensures status == 200 && Valid()
    {
      this.minSize := minSize;
      status, wroteHeader, buf, skip, compressing, held, log := 200, false, [], false, false, false, [];
      written, flushed, forbade := [], false, false;
    }

    /** Undecided: nothing sent, all of it buffered, below the threshold. Decided: sent, through one sink. */
    ghost predicate Valid()
      reads this
    {
      var s := EffectOf(log);
      && minSize > 0 && held == compressing && !(skip && compressing)
      && (!wroteHeader ==> written == [] && !flushed && !forbade && status == 200)
      && skip == (wroteHeader && (Bodiless(status) || forbade))
      && compressing == (wroteHeader && !skip && (|written| >= minSize || flushed))
      && if skip || compressing then
           && wroteHeader && buf == [] && s == Sent(status, written, s.raw, s.encoded, if compressing then 1 else 0, 0)
           && (skip ==> !s.encoded) && (compressing ==> !s.raw)
         else s == NOTHING && buf == written
    }

    method Emit(o: Out)
      modifies this`log
      ensures log == old(log) + [o] && EffectOf(log) == Extend(EffectOf(old(log)), o)
    {
      EffectNext(log, o);
      log := log + [o];
    }

    /** The first final status decides; an informational one is passed on. */
    method WriteHeader(code: int, h: Headers)
      requires Valid()
      modifies this
      ensures Valid() && written == old(written) && flushed == old(flushed)
      ensures wroteHeader == (old(wroteHeader) || !Informational(code))
      ensures status == if old(wroteHeader) || Informational(code) then old(status) else code
      ensures forbade == if old(wroteHeader) || Informational(code) then old(forbade) else Forbids(h)
    {
      hide EffectOf, NoTransform;
      if Informational(code) {
        Emit(Inform(code));
        return;
      }
      if wroteHeader {
        return;
      }
      var fixed := HasNoTransform(h.cacheControl);
      wroteHeader, status, forbade := true, code, Forbids(h);
      if Bodiless(code) || h.encoding != "" || h.range != "" || fixed || !h.compressible {
        skip := true;
      }
      if skip {
        Emit(Head(code));
      }
    }

    method StartCompress()
      requires EffectOf(log) == NOTHING
      modifies this`compressing, this`held, this`log
      ensures compressing && held && EffectOf(log) == Sent(status, [], false, false, 1, 0)
    {
      hide EffectOf;
      compressing := true;
      Emit(Head(status));
      Emit(Acquire);
      held := true;
    }

    method Write(p: Text, h: Headers)
      requires Valid()
      modifies this
      ensures Valid() && written == old(written) + p && wroteHeader && flushed == old(flushed)
      ensures status == old(status) && forbade == if old(wroteHeader) then old(forbade) else Forbids(h)
    {
      hide EffectOf, Forbids;
      if !wroteHeader {
        WriteHeader(200, h);
      }
      if skip {
        Emit(Raw(p));
      } else if compressing {
        Emit(Encode(p));
      } else if |buf| == 0 && |p| >= minSize {
        StartCompress();
        Emit(Encode(p));
      } else {
        buf := buf + p;
        if |buf| >= minSize {
          StartCompress();
          Emit(Encode(buf));
          buf := [];
        }
      }
      written := written + p;
    }

    /** A flush ends the waiting: what could be encoded is encoded from here on. */
    method Flush(h: Headers)
      requires Valid()
      modifies this
      ensures Valid() && written == old(written) && wroteHeader && flushed
      ensures status == old(status) && forbade == if old(wroteHeader) then old(forbade) else Forbids(h)
    {
      hide EffectOf, Forbids;
      if !wroteHeader {
        WriteHeader(200, h);
      }
      if !skip && !compressing {
        StartCompress();
        if |buf| > 0 {
          Emit(Encode(buf));
          buf := [];
        }
      }
      if compressing {
        Emit(FlushEncoder);
      }
      flushed := true;
      Emit(FlushRaw);
    }

    /** The end of the response: everything written is sent, once, after one header, through one sink. */
    method Finish(h: Headers)
      requires Valid()
      modifies this
      ensures Complete(EffectOf(log), status, old(written)) && !held && status == old(status)
      ensures EffectOf(log).acquired == 1 <==>
              old(wroteHeader) && !Bodiless(status) && !old(forbade) && (|old(written)| >= minSize || old(flushed))
    {
      hide EffectOf, Forbids;
      if !wroteHeader {
        WriteHeader(200, h);
      }
      if compressing {
        Emit(Release);
        held := false;
        return;
      }
      if skip {
        return;
      }
      Emit(Head(status));
      if |buf| > 0 {
        Emit(Raw(buf));
        buf := [];
      }
    }

    /** After a panic: the encoder goes back and nothing more is sent. */
    method Abandon()
      requires Valid()
      modifies this
      ensures var s, o := EffectOf(log), EffectOf(old(log));
              s == o.(released := s.released) && s.released == s.acquired <= 1
      ensures !held
    {
      hide EffectOf;
      if held {
        Emit(Release);
        held := false;
      }
      buf := [];
    }
  }

  /** One header before all of the body, the whole body, one sink, and every encoder given back. */
  ghost predicate Complete(s: Effect, status: int, body: Text) {
    && s.heads == [status] && s.body == body && s.ordered
    && !(s.raw && s.encoded) && (s.encoded ==> s.acquired == 1) && s.released == s.acquired <= 1
  }

  datatype Call = SetStatus(code: int, h: Headers) | Body(bytes: Text, h: Headers) | FlushNow(h: Headers)

  /** Everything the handler writes. */
  function Bodies(calls: seq<Call>): Text {
    if calls == [] then []
    else Bodies(calls[..|calls| - 1]) + if calls[|calls| - 1].Body? then calls[|calls| - 1].bytes else []
  }

  /** What the handler decides first, by setting a final status or by writing or flushing before that. */
  datatype Decision = Undecided | Decided(status: int, forbidden: bool)

  function FirstDecision(calls: seq<Call>): Decision {
    if calls == [] then Undecided
    else
      var before, c := FirstDecision(calls[..|calls| - 1]), calls[|calls| - 1];
      if before.Decided? || (c.SetStatus? && Informational(c.code)) then before
      else Decided(if c.SetStatus? then c.code else 200, Forbids(c.h))
  }

  function StatusOf(d: Decision): int {
    if d.Decided? then d.status else 200
  }

  function Flushes(calls: seq<Call>): bool {
    calls != [] && (Flushes(calls[..|calls| - 1]) || calls[|calls| - 1].FlushNow?)
  }

  /** A response is encoded iff it has a body worth it, or was flushed, and nothing forbids it. */
  predicate Encodes(calls: seq<Call>, minSize: nat) {
    var d := FirstDecision(calls);
    d.Decided? && !Bodiless(d.status) && !d.forbidden && (|Bodies(calls)| >= minSize || Flushes(calls))
  }

  /** The call settles the status: any but an informational one, and switching protocols is final. */
  predicate Settles(c: Call) {
    !(c.SetStatus? && 100 <= c.code <= 199 && c.code != 101)
  }

  /** The decision is that of call `i`: its own status, or 200, and what the headers say there and then. */
  ghost predicate DecidedBy(d: Decision, calls: seq<Call>, i: nat) {
    && i < |calls| && Settles(calls[i]) && (forall j | 0 <= j < i :: !Settles(calls[j]))
    && d.Decided? && d.status == (if calls[i].SetStatus? then calls[i].code else 200)
    && var h := calls[i].h;
       d.forbidden <==>
         || h.encoding != "" || h.range != "" || !h.compressible
         || exists part :: part in Split(h.cacheControl, ',') && LowerAll(Trimmed(part)) == "no-transform"
  }

  /** The first call that settles the status decides. */
  lemma {:induction false} FirstCallDecides(calls: seq<Call>)
    ensures FirstDecision(calls) == Undecided <==> forall i | 0 <= i < |calls| :: !Settles(calls[i])
    ensures FirstDecision(calls).Decided? ==> exists i | 0 <= i < |calls| :: DecidedBy(FirstDecision(calls), calls, i)
  {
    hide DecidedBy, Forbids;
    if calls != [] {
      var before, n := calls[..|calls| - 1], |calls| - 1;
      FirstCallDecides(before);
      if FirstDecision(before).Decided? {
        var i :| 0 <= i < |before| && DecidedBy(FirstDecision(before), before, i);
        StillDecides(FirstDecision(before), calls, i);
      } else if Settles(calls[n]) {
        assert forall j | 0 <= j < n :: calls[j] == before[j];
        NowDecides(calls);
      }
    }
  }

  lemma StillDecides(d: Decision, calls: seq<Call>, i: nat)
    requires calls != [] && DecidedBy(d, calls[..|calls| - 1], i)
    ensures DecidedBy(d, calls, i) && Settles(calls[i])
  {
    hide Settles, Split, LowerAll, Trimmed;
    assert forall j | 0 <= j <= i :: calls[j] == calls[..|calls| - 1][j];
  }

  lemma NowDecides(calls: seq<Call>)
    requires var n := |calls| - 1;
             && n >= 0 && Settles(calls[n]) && FirstDecision(calls[..n]).Undecided?
             && forall j | 0 <= j < n :: !Settles(calls[j])
    ensures DecidedBy(FirstDecision(calls), calls, |calls| - 1)
  {
    hide Split, LowerAll, Trimmed;
  }

  /** A response is encoded for a settled status that has a body, unless the headers forbid it or it stays small. */
  lemma EncodesExactly(calls: seq<Call>, minSize: nat)
    ensures Encodes(calls, minSize) <==>
            && FirstDecision(calls).Decided? && !FirstDecision(calls).forbidden
            && FirstDecision(calls).status >= 200 && FirstDecision(calls).status !in {204, 304}
            && (|Bodies(calls)| >= minSize || exists c :: c in calls && c.FlushNow?)
  {
    FlushesIs(calls);
  }

  lemma {:induction false} FlushesIs(calls: seq<Call>)
    ensures Flushes(calls) <==> exists c :: c in calls && c.FlushNow?
  {
    if calls != [] {
      var before, c := calls[..|calls| - 1], calls[|calls| - 1];
      FlushesIs(before);
      assert calls == before + [c];
      if Flushes(before) {
        var x :| x in before && x.FlushNow?;
        assert x in calls;
      }
    }
  }

  /** Whatever the handler does, in whatever order, the response that leaves is complete. */
  method Serve(calls: seq<Call>, minSize: nat, h: Headers) returns (log: seq<Out>)
    requires minSize > 0
    ensures Complete(EffectOf(log), StatusOf(FirstDecision(calls)), Bodies(calls))
    ensures EffectOf(log).acquired == 1 <==> Encodes(calls, minSize)
    ensures EffectOf(log).encoded ==> EffectOf(log).acquired == 1
  {
    var w := new ResponseWriter(minSize);
    for i := 0 to |calls|
      invariant w.Valid() && w.minSize == minSize && w.written == Bodies(calls[..i]) && w.flushed == Flushes(calls[..i])
      invariant FirstDecision(calls[..i]) == if w.wroteHeader then Decided(w.status, w.forbade) else Undecided
    {
      assert calls[..i + 1][..i] == calls[..i];
      match calls[i] {
        case SetStatus(code, f) => w.WriteHeader(code, f);
        case Body(p, f) => w.Write(p, f);
        case FlushNow(f) => w.Flush(f);
      }
    }
    assert calls[..|calls|] == calls;
    w.Finish(h);
    log := w.log;
  }
}
