/** The confidence filter of ocr-service/main.py (lines 152-164): the
    service reports only the winning result's detections it is confident
    about. */
module ResultFilter {
  import opened OcrTypes

  /** A detection the service reports: confidence at least the threshold
      (the boundary itself is kept). */
  predicate Confident(d: Detection)
  {
    d.confidence >= MIN_CONFIDENCE
  }

  /** The confident detections of `ds`, in their original order. */
  function ConfidentOnly(ds: seq<Detection>): seq<Detection>
  {
    if ds == [] then []
    else
      var last := ds[|ds| - 1];
      ConfidentOnly(ds[..|ds| - 1]) + (if Confident(last) then [last] else [])
  }

  /** The formatted output for the winning result: nothing for a missing
      result. */
  function Formatted(best: EngineOutput): seq<Detection>
  {
    if best.Some? then ConfidentOnly(best.value) else []
  }

  /** The formatting loop: walks the winning result's detections in order
      and appends each confident one, text and confidence unchanged. */
  method FormatOutput(best: EngineOutput) returns (out: seq<Detection>)
    ensures out == Formatted(best)
  {
    out := [];
    if best.Some? && |best.value| > 0 {
      var ds := best.value;
      for i := 0 to |ds|
        invariant out == ConfidentOnly(ds[..i])
      {
        assert ds[..i + 1][..i] == ds[..i];
        if ds[i].confidence >= MIN_CONFIDENCE {
          out := out + [ds[i]];
        }
      }
      assert ds[..|ds|] == ds;
    }
  }

  /** A detection is reported exactly when it is one of the result's
      detections and confident. */
  lemma {:induction false} ConfidentOnlyMembership(ds: seq<Detection>, d: Detection)
    ensures d in ConfidentOnly(ds) <==> d in ds && Confident(d)
  {
    if ds != [] {
      var init, last := ds[..|ds| - 1], ds[|ds| - 1];
      assert ds == init + [last];
      ConfidentOnlyMembership(init, d);
    }
  }

  /** Filtering a concatenation filters each part and keeps them in order. */
  lemma {:induction false} ConfidentOnlyAppend(a: seq<Detection>, b: seq<Detection>)
    ensures ConfidentOnly(a + b) == ConfidentOnly(a) + ConfidentOnly(b)
  {
    if b != [] {
      var init, last := b[..|b| - 1], b[|b| - 1];
      assert (a + b)[..|a + b| - 1] == a + init;
      assert (a + b)[|a + b| - 1] == last;
      ConfidentOnlyAppend(a, init);
    } else {
      assert a + b == a;
    }
  }

  /** One detection is kept unchanged when its confidence is at least 0.4,
      and dropped otherwise. */
  lemma ConfidentOnlySingle(d: Detection)
    ensures ConfidentOnly([d]) == if d.confidence >= 0.4 then [d] else []
  {
    assert [d][..0] == [];
  }

  /** The output never holds more detections than the result it came from. */
  lemma {:induction false} ConfidentOnlyLength(ds: seq<Detection>)
    ensures |ConfidentOnly(ds)| <= |ds|
    ensures |ConfidentOnly(ds)| == |ds| <==> forall i :: 0 <= i < |ds| ==> Confident(ds[i])
  {
    if ds != [] {
      var init := ds[..|ds| - 1];
      ConfidentOnlyLength(init);
      if forall i :: 0 <= i < |ds| ==> Confident(ds[i]) {
        assert forall i :: 0 <= i < |init| ==> Confident(init[i]) by {
          forall i | 0 <= i < |init| ensures Confident(init[i]) {
            assert init[i] == ds[i];
          }
        }
      } else if Confident(ds[|ds| - 1]) {
        var i :| 0 <= i < |ds| && !Confident(ds[i]);
        assert init[i] == ds[i];
      }
    }
  }

  /** Filtering twice is filtering once. */
  lemma {:induction false} ConfidentOnlyIdempotent(ds: seq<Detection>)
    ensures ConfidentOnly(ConfidentOnly(ds)) == ConfidentOnly(ds)
  {
    if ds != [] {
      var init, last := ds[..|ds| - 1], ds[|ds| - 1];
      ConfidentOnlyIdempotent(init);
      var tail := if Confident(last) then [last] else [];
      ConfidentOnlyAppend(ConfidentOnly(init), tail);
      if Confident(last) {
        ConfidentOnlySingle(last);
      }
    }
  }

  /** A missing or empty winning result yields an empty list, not an error. */
  lemma FormattedEmpty(best: EngineOutput)
    requires best.None? || best.value == []
    ensures Formatted(best) == []
  {
  }
}
