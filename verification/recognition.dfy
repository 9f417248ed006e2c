/**
 The last stage of the recognize button: the extraction service's answer is
 stripped of markdown fences, parsed, given a usable receipt date, and every
 line is stamped with that date before the review screen receives it.

 Three things the browser supplies are parameters here: `parseJson` stands
 for `JSON.parse` followed by the shape the code then relies on (it answers
 `None` wherever the code would throw), `validDate` for "`new Date(x)` is not
 an invalid date", and `nowIso` for `new Date().toISOString()`.
 */
module Recognition {
  import opened ReceiptTypes
  import opened Text
  import opened ItemEdits
  import ReviewState

  const JsonFence := "```json"
  const Fence := "```"

  /** No three backticks in a row anywhere in `s`. */
  predicate NoFence(s: string) {
    forall k :: 0 <= k && k + 3 <= |s| ==> !(s[k] == '`' && s[k + 1] == '`' && s[k + 2] == '`')
  }

  /** `s` does not start with two backticks. */
  predicate NoDoubleTickStart(s: string) {
    |s| < 2 || s[0] != '`' || s[1] != '`'
  }

  /** `text.replace(/```json|```/g, "")`: scanning left to right, every
      "```json" and every other "```" is cut out, so no three backticks in a
      row are left. Text without a backtick is left alone, and a character
      other than a backtick at the front stays at the front. */
  function RemoveFences(s: string): (r: string)
    ensures |r| <= |s|
    ensures NoFence(r)
    ensures '`' !in s ==> r == s
    ensures |s| > 0 && s[0] != '`' ==> |r| > 0 && r[0] == s[0]
    ensures NoDoubleTickStart(s) ==> NoDoubleTickStart(r)
    decreases |s|
  {
    if |s| >= 7 && s[..7] == JsonFence then
      assert s[0] == JsonFence[0] && s[1] == JsonFence[1];
      RemoveFences(s[7..])
    else if |s| >= 3 && s[..3] == Fence then
      assert s[0] == Fence[0] && s[1] == Fence[1];
      RemoveFences(s[3..])
    else if |s| == 0 then ""
    else
      var t := s[1..];
      var rest := RemoveFences(t);
      var r := [s[0]] + rest;
      assert s[0] == '`' ==> NoDoubleTickStart(t) by {
        if s[0] == '`' && |s| >= 3 {
          assert s[..3] != Fence;
          assert s[1] != '`' || s[2] != '`';
        }
      }
      assert NoFence(r) by {
        forall k | 0 <= k && k + 3 <= |r|
          ensures !(r[k] == '`' && r[k + 1] == '`' && r[k + 2] == '`')
        {
          if k > 0 {
            assert r[k] == rest[k - 1] && r[k + 1] == rest[k] && r[k + 2] == rest[k + 1];
          }
        }
      }
      r
  }

  /** `r` is `s` with some "```json" and "```" pieces cut out and every other
      character kept, in order. Where "```json" starts, it is cut as a whole
      or not at all, never just its backticks. */
  predicate CutFrom(s: string, r: string)
    decreases |s|
  {
    if |s| == 0 then r == []
    else
      || (|s| >= 7 && s[..7] == JsonFence && CutFrom(s[7..], r))
      || (|s| >= 3 && s[..3] == Fence && !(|s| >= 7 && s[..7] == JsonFence) && CutFrom(s[3..], r))
      || (|r| > 0 && r[0] == s[0] && CutFrom(s[1..], r[1..]))
  }

  /** Removing the fences cuts out fence pieces only: every character that is
      not part of a removed "```json" or "```" survives, in order. */
  lemma {:induction false} RemoveFencesCutsOnlyFences(s: string)
    ensures CutFrom(s, RemoveFences(s))
    decreases |s|
  {
    var r := RemoveFences(s);
    if |s| >= 7 && s[..7] == JsonFence {
      RemoveFencesCutsOnlyFences(s[7..]);
    } else if |s| >= 3 && s[..3] == Fence {
      RemoveFencesCutsOnlyFences(s[3..]);
    } else if |s| > 0 {
      RemoveFencesCutsOnlyFences(s[1..]);
      assert r == [s[0]] + RemoveFences(s[1..]);
      assert r[1..] == RemoveFences(s[1..]);
    }
  }

  /** A "```json" is cut as a whole, also in the middle of the text: it never
      loses only its backticks. */
  lemma JsonFenceCutWhole(a: string, b: string)
    requires '`' !in a
    ensures RemoveFences(a + JsonFence + b) == a + RemoveFences(b)
  {
    var t := JsonFence + b;
    assert a + JsonFence + b == a + t;
    RemoveFencesPlainPrefix(a, t);
    assert t[..7] == JsonFence && t[7..] == b;
  }

  /** A fence in the middle of the text is cut out and the text around it
      is joined. */
  lemma FenceInsideText()
    ensures RemoveFences("x```y") == "xy"
  {
    var s := "x```y";
    PlainHead(s);
    assert s[1..] == "```y" && "```y"[..3] == Fence && "```y"[3..] == "y";
    PlainHead("y");
    assert "y"[1..] == "";
  }

  /** A character other than a backtick is copied and the scan moves on. */
  lemma PlainHead(s: string)
    requires |s| > 0 && s[0] != '`'
    ensures RemoveFences(s) == [s[0]] + RemoveFences(s[1..])
  {
    assert s[0] != JsonFence[0] && s[0] != Fence[0];
    assert !(|s| >= 7 && s[..7] == JsonFence);
    assert !(|s| >= 3 && s[..3] == Fence);
  }

  /** The first character of a backtick-free prefix is copied. */
  lemma PlainPrefixStep(a: string, b: string)
    requires '`' !in a && |a| > 0
    ensures '`' !in a[1..] && RemoveFences(a + b) == [a[0]] + RemoveFences(a[1..] + b)
  {
    var s := a + b;
    assert s[0] == a[0] && s[1..] == a[1..] + b;
    PlainHead(s);
    assert forall k :: 0 <= k < |a| - 1 ==> a[1..][k] == a[k + 1];
  }

  /** Text without backticks passes through unchanged in front of the rest. */
  lemma {:induction false} RemoveFencesPlainPrefix(a: string, b: string)
    requires '`' !in a
    ensures RemoveFences(a + b) == a + RemoveFences(b)
    decreases |a|
  {
    if |a| > 0 {
      PlainPrefixStep(a, b);
      RemoveFencesPlainPrefix(a[1..], b);
      assert a == [a[0]] + a[1..];
    } else {
      assert a + b == b;
    }
  }

  /** `replace(...).trim()`: the fences are gone and neither end is
      whitespace. */
  function StripFences(s: string): (r: string)
    ensures |r| <= |s|
    ensures NoFence(r)
    ensures r == [] || (!IsJsWhitespace(r[0]) && !IsJsWhitespace(r[|r| - 1]))
    ensures exists i :: TrimmedAt(RemoveFences(s), r, i)
  {
    var x := RemoveFences(s);
    var r := Trim(x);
    NoFenceSlice(x, r);
    r
  }

  /** Trimming fence-free text leaves it fence-free. */
  lemma NoFenceSlice(x: string, r: string)
    requires NoFence(x) && exists i :: TrimmedAt(x, r, i)
    ensures NoFence(r)
  {
    var i :| TrimmedAt(x, r, i);
    forall k | 0 <= k && k + 3 <= |r|
      ensures !(r[k] == '`' && r[k + 1] == '`' && r[k + 2] == '`')
    {
      assert r[k] == x[i + k] && r[k + 1] == x[i + k + 1] && r[k + 2] == x[i + k + 2];
    }
  }

  /** A payload fenced the way the language model is asked to answer comes out as its
      trimmed body. */
  lemma {:induction false} StripFencesUnwrapsFencedBody(body: string)
    requires '`' !in body
    ensures StripFences(JsonFence + "\n" + body + "\n" + Fence) == Trim(body)
  {
    var inner := "\n" + body + "\n";
    var s := JsonFence + "\n" + body + "\n" + Fence;
    assert s == JsonFence + (inner + Fence);
    assert s[..7] == JsonFence && s[7..] == inner + Fence;
    assert '`' !in inner by {
      forall k | 0 <= k < |inner| ensures inner[k] != '`' {
        if 0 < k < |inner| - 1 { assert inner[k] == body[k - 1]; }
      }
    }
    RemoveFencesPlainPrefix(inner, Fence);
    assert Fence[..3] == Fence && Fence[3..] == "";
    assert RemoveFences(Fence) == "";
    assert inner + "" == inner;
    assert inner == ['\n'] + body + ['\n'];
    TrimIgnoresSurroundingWhitespace(body, '\n', '\n');
  }

  /** `today.toISOString().split('T')[0]`: the calendar-date part of the ISO
      timestamp, i.e. everything before its first 'T'. */
  function TodayDate(nowIso: string): (r: string)
    ensures |r| <= |nowIso| && r == nowIso[..|r|] && 'T' !in r
    ensures |r| == |nowIso| || nowIso[|r|] == 'T'
  {
    BeforeFirst(nowIso, 'T')
  }

  /** The date pass: a valid receipt date is kept, an invalid one becomes
      today's date; then every line is given the receipt date if that is
      valid and today's date otherwise. Either way every line ends up with
      exactly the receipt's date, whatever it carried before, and keeps its
      description, price and position. */
  function NormalizeRecord(raw: Receipt, validDate: string -> bool, nowIso: string): (r: Receipt)
    ensures validDate(raw.date) ==> r.date == raw.date
    ensures !validDate(raw.date) ==> r.date == TodayDate(nowIso)
    ensures |r.items| == |raw.items|
    ensures forall k :: 0 <= k < |raw.items| ==> r.items[k] == raw.items[k].(date := r.date)
  {
    var date := if validDate(raw.date) then raw.date else TodayDate(nowIso);
    var itemDate := if validDate(date) then date else TodayDate(nowIso);
    Receipt(date, SetAllDates(raw.items, itemDate))
  }

  /** Normalising twice gives what normalising once gives, provided today's
      date is itself a valid date. */
  lemma NormalizeRecordIdempotent(raw: Receipt, validDate: string -> bool, nowIso: string)
    requires validDate(TodayDate(nowIso))
    ensures var once := NormalizeRecord(raw, validDate, nowIso);
      NormalizeRecord(once, validDate, nowIso) == once
  {
  }

  /** From the service's answer to the receipt handed to the review screen;
      `None` wherever the code throws and the error toast is shown instead. */
  function Recognize(response: string, parseJson: string -> Option<Receipt>,
                     validDate: string -> bool, nowIso: string): (r: Option<Receipt>)
    ensures parseJson(StripFences(response)).None? <==> r.None?
    ensures r.Some? ==> var raw := parseJson(StripFences(response)).value;
      && (validDate(raw.date) ==> r.value.date == raw.date)
      && (!validDate(raw.date) ==> r.value.date == TodayDate(nowIso))
      && |r.value.items| == |raw.items|
      && forall k :: 0 <= k < |raw.items| ==> r.value.items[k] == raw.items[k].(date := r.value.date)
  {
    match parseJson(StripFences(response))
    case None => None
    case Some(raw) => Some(NormalizeRecord(raw, validDate, nowIso))
  }

  /** The review state after the recognize button. `response` is `None` when
      an earlier step (recognition, the request, reading its body) failed.
      Any failure leaves the review state exactly as it was; success loads
      the normalised receipt. */
  function ApplyRecognition(s: ReviewState.Review, response: Option<string>,
                            parseJson: string -> Option<Receipt>, validDate: string -> bool,
                            nowIso: string): (r: ReviewState.Review)
    ensures (response.None? || Recognize(response.value, parseJson, validDate, nowIso).None?) ==> r == s
    ensures response.Some? && Recognize(response.value, parseJson, validDate, nowIso).Some? ==>
      && r.Loaded? && ReviewState.Valid(r)
      && r == ReviewState.Load(s, Recognize(response.value, parseJson, validDate, nowIso).value)
      && r.record == Recognize(response.value, parseJson, validDate, nowIso).value
      && (validDate(r.record.date) || r.record.date == TodayDate(nowIso))
      && forall k :: 0 <= k < |r.record.items| ==> r.record.items[k].date == r.record.date
  {
    match response
    case None => s
    case Some(text) =>
      match Recognize(text, parseJson, validDate, nowIso)
      case None => s
      case Some(rec) => ReviewState.Load(s, rec)
  }

  /** A fenced answer whose receipt date is not a date reaches the review
      screen dated today, and so do all its lines. */
  lemma {:induction false} FencedInvalidDateBecomesToday(s: ReviewState.Review, body: string, raw: Receipt,
                                                         parseJson: string -> Option<Receipt>,
                                                         validDate: string -> bool, nowIso: string)
    requires '`' !in body
    requires parseJson(Trim(body)) == Some(raw) && !validDate(raw.date)
    ensures var r := ApplyRecognition(s, Some(JsonFence + "\n" + body + "\n" + Fence), parseJson, validDate, nowIso);
      && r.Loaded? && r.record.date == TodayDate(nowIso) && r.date == Some(TodayDate(nowIso))
      && |r.record.items| == |raw.items|
      && forall k :: 0 <= k < |raw.items| ==> r.record.items[k].date == TodayDate(nowIso)
  {
    StripFencesUnwrapsFencedBody(body);
  }
}
