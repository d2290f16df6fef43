/** The deterministic part of `run_smart_ocr`: the clean-up of the model's
    reply, the Timestamp defaulting and the parse of that column. The remote
    call, `json.loads` with the DataFrame construction, and `pd.to_datetime`
    are parameters. */
module Extraction {
  import opened Wrappers
  import opened Text
  import opened Records

  const JsonFence: string := "```json"

  /** A stripped string holds no substring the unstripped one did not. */
  lemma StripKeepsAbsent(s: string, p: string)
    ensures Contains(Strip(s), p) ==> Contains(s, p)
  {
    ContainsPiece(s, Strip(s), LeadingSpaces(s), p);
  }

  /** A string with a ```json fence holds a bare fence where it starts. */
  lemma JsonFenceHasFence(s: string)
    ensures Contains(s, JsonFence) ==> Contains(s, Fence)
  {
    if Contains(s, JsonFence) {
      var i :| OccursAt(s, JsonFence, i);
      assert s[i..i + 3] == s[i..i + 7][..3];
      assert OccursAt(s, Fence, i);
    }
  }

  /** No fence is left in the cleaned reply. */
  lemma CleanedHasNoFence(reply: string)
    ensures !Contains(Strip(RemoveAll(RemoveAll(reply, JsonFence), Fence)), Fence)
  {
    RemoveAllFenceLeavesNone(RemoveAll(reply, JsonFence));
    StripKeepsAbsent(RemoveAll(RemoveAll(reply, JsonFence), Fence), Fence);
  }

  /** A reply without backticks and outer whitespace is left unchanged. */
  lemma CleanedUnchanged(reply: string)
    ensures (forall i :: 0 <= i < |reply| ==> reply[i] != '`')
            && (reply == [] || (!IsSpace(reply[0]) && !IsSpace(reply[|reply| - 1])))
            ==> Strip(RemoveAll(RemoveAll(reply, JsonFence), Fence)) == reply
  {
    if (forall i :: 0 <= i < |reply| ==> reply[i] != '`')
       && (reply == [] || (!IsSpace(reply[0]) && !IsSpace(reply[|reply| - 1])))
    {
      RemoveAllAbsent(reply, JsonFence);
      RemoveAllAbsent(reply, Fence);
      StripUnchanged(reply);
    }
  }

  /** `reply.replace('```json', '').replace('```', '').strip()`. No code fence
      is left in the result, and a reply holding no backtick and no outer
      whitespace comes back as it was. */
  function CleanReply(reply: string): (r: string)
    ensures !Contains(r, Fence) && !Contains(r, JsonFence)
    ensures (forall i :: 0 <= i < |reply| ==> reply[i] != '`')
            && (reply == [] || (!IsSpace(reply[0]) && !IsSpace(reply[|reply| - 1])))
            ==> r == reply
  {
    CleanedHasNoFence(reply);
    JsonFenceHasFence(Strip(RemoveAll(RemoveAll(reply, JsonFence), Fence)));
    CleanedUnchanged(reply);
    Strip(RemoveAll(RemoveAll(reply, JsonFence), Fence))
  }

  /** No character of `s` is a backtick. */
  predicate NoBacktick(s: string) {
    forall i :: 0 <= i < |s| ==> s[i] != '`'
  }

  lemma SpaceNoBacktick(s: string)
    requires AllSpace(s)
    ensures NoBacktick(s)
  {
  }

  /** The first replace on a fenced reply: only the opening ```json goes. */
  lemma RemoveJsonFence(a: string, m: string, d: string)
    requires NoBacktick(a) && NoBacktick(m) && AllSpace(d)
    ensures RemoveAll(a + JsonFence + m + Fence + d, JsonFence) == a + m + Fence + d
  {
    assert a + JsonFence + m + Fence + d == a + (JsonFence + (m + (Fence + d)));
    RemoveAllSkip(a, JsonFence + (m + (Fence + d)), JsonFence);
    RemoveAllLead(JsonFence, m + (Fence + d));
    RemoveAllSkip(m, Fence + d, JsonFence);
    assert forall k :: 0 <= k < |Fence + d| ==> (Fence + d)[k] != 'j';
    NotContainsChar(Fence + d, JsonFence, 3);
    RemoveAllNoMatch(Fence + d, JsonFence);
    assert a + (m + (Fence + d)) == a + m + Fence + d;
  }

  /** The second replace: the closing fence goes. */
  lemma RemoveClosingFence(u: string, d: string)
    requires NoBacktick(u) && AllSpace(d)
    ensures RemoveAll(u + Fence + d, Fence) == u + d
  {
    assert u + Fence + d == u + (Fence + d);
    RemoveAllSkip(u, Fence + d, Fence);
    RemoveAllLead(Fence, d);
    SpaceNoBacktick(d);
    RemoveAllAbsent(d, Fence);
  }

  /** Both replaces on a fenced reply leave the text between the fences
      with the whitespace that surrounded it. */
  lemma RemoveFences(a: string, b: string, x: string, c: string, d: string)
    requires AllSpace(a) && AllSpace(b) && AllSpace(c) && AllSpace(d)
    requires NoBacktick(x)
    ensures RemoveAll(RemoveAll(a + JsonFence + b + x + c + Fence + d, JsonFence), Fence)
            == (a + b) + x + (c + d)
  {
    var m := b + x + c;
    FencedParts(a, b, x, c);
    RegroupFenced(a, JsonFence, b, x, c, Fence, d);
    RemoveJsonFence(a, m, d);
    RemoveClosingFence(a + m, d);
    RegroupInner(a, b, x, c, d);
  }

  /** The text around the opening fence holds no backtick. */
  lemma FencedParts(a: string, b: string, x: string, c: string)
    requires AllSpace(a) && AllSpace(b) && AllSpace(c) && NoBacktick(x)
    ensures NoBacktick(a) && NoBacktick(b + x + c) && NoBacktick(a + (b + x + c))
  {
    SpaceNoBacktick(a);
    SpaceNoBacktick(b);
    SpaceNoBacktick(c);
    NoBacktickConcat(b, x);
    NoBacktickConcat(b + x, c);
    NoBacktickConcat(a, b + x + c);
  }

  lemma RegroupFenced(a: string, j: string, b: string, x: string, c: string, f: string, d: string)
    ensures a + j + b + x + c + f + d == a + j + (b + x + c) + f + d
  {
  }

  lemma RegroupInner(a: string, b: string, x: string, c: string, d: string)
    ensures a + (b + x + c) + d == (a + b) + x + (c + d)
  {
  }

  lemma NoBacktickConcat(u: string, v: string)
    requires NoBacktick(u) && NoBacktick(v)
    ensures NoBacktick(u + v)
  {
    forall i | 0 <= i < |u + v|
      ensures (u + v)[i] != '`'
    {
      if i >= |u| {
        assert (u + v)[i] == v[i - |u|];
      }
    }
  }

  /** A reply fenced as a ```json code block, with any whitespace around
      the fences, is cleaned to the stripped text between them. */
  lemma CleanReplyFenced(a: string, b: string, x: string, c: string, d: string)
    requires AllSpace(a) && AllSpace(b) && AllSpace(c) && AllSpace(d)
    requires NoBacktick(x)
    ensures CleanReply(a + JsonFence + b + x + c + Fence + d) == Strip(x)
  {
    RemoveFences(a, b, x, c, d);
    assert AllSpace(a + b) && AllSpace(c + d);
    StripPadded(a + b, x, c + d);
  }

  /** Some row has a non-null Timestamp. pandas creates the column when any
      record carries the key, even with a null value; a Row cannot tell a
      null key from a missing one, so this stands for the column test. The
      difference does not matter: StampAllIsFill shows that without a
      non-null Timestamp both branches of line 56 give the same table. */
  predicate HasTimestampColumn<T>(rows: seq<Row<T>>): (b: bool)
    ensures b ==> |rows| > 0
    ensures !b ==> forall i :: 0 <= i < |rows| ==> rows[i].Timestamp.None?
  {
    exists i :: 0 <= i < |rows| && rows[i].Timestamp.Some?
  }

  /** Without the column, stamping every row (line 57) does what filling the
      nulls (line 59) does, so the branch at line 56 never changes the outcome. */
  lemma {:induction false} StampAllIsFill(rows: seq<Row<string>>, now: string)
    requires !HasTimestampColumn(rows)
    ensures StampAll(rows, now) == FillNullTimestamps(rows, now)
  {
    if |rows| > 0 {
      assert rows[0].Timestamp.None?;
      assert !HasTimestampColumn(rows[1..]) by {
        forall i | 0 <= i < |rows[1..]| ensures rows[1..][i].Timestamp.None? {
          assert rows[1..][i] == rows[i + 1];
        }
      }
      StampAllIsFill(rows[1..], now);
    }
  }

  /** `df['Timestamp'] = now`: every row is stamped with `now`. */
  function StampAll(rows: seq<Row<string>>, now: string): (r: seq<Row<string>>)
    ensures |r| == |rows|
    ensures forall i :: 0 <= i < |r| ==> r[i] == rows[i].(Timestamp := Some(now))
  {
    if |rows| == 0 then []
    else [rows[0].(Timestamp := Some(now))] + StampAll(rows[1..], now)
  }

  /** `df['Timestamp'].fillna(now)`: the null cells get `now`. */
  function FillNullTimestamps(rows: seq<Row<string>>, now: string): (r: seq<Row<string>>)
    ensures |r| == |rows|
    ensures forall i :: 0 <= i < |r| ==>
              r[i] == rows[i].(Timestamp := Some(rows[i].Timestamp.GetOr(now)))
  {
    if |rows| == 0 then []
    else [rows[0].(Timestamp := Some(rows[0].Timestamp.GetOr(now)))]
         + FillNullTimestamps(rows[1..], now)
  }

  /** Lines 56-59: add the column when it is missing, then fill the nulls.
      Either way each row keeps its own Timestamp when it has one and gets
      `now` otherwise; the other four cells and the row count are untouched. */
  function DefaultTimestamps(rows: seq<Row<string>>, now: string): (r: seq<Row<string>>)
    ensures |r| == |rows|
    ensures forall i :: 0 <= i < |r| ==>
              && r[i].Timestamp == Some(rows[i].Timestamp.GetOr(now))
              && r[i].Item == rows[i].Item && r[i].Category == rows[i].Category
              && r[i].Price == rows[i].Price && r[i].Size == rows[i].Size
  {
    var withColumn := if HasTimestampColumn(rows) then rows else StampAll(rows, now);
    FillNullTimestamps(withColumn, now)
  }

  /** `pd.to_datetime(df['Timestamp'], errors='coerce')`, cell by cell:
      text that does not parse becomes a null (NaT). */
  function ParseTimestamps(rows: seq<Row<string>>, toDateTime: string -> Option<DateTime>)
    : (r: seq<Row<DateTime>>)
    ensures |r| == |rows|
    ensures forall i :: 0 <= i < |r| ==>
              && r[i].Timestamp == (if rows[i].Timestamp.Some? then toDateTime(rows[i].Timestamp.value) else None)
              && r[i].Item == rows[i].Item && r[i].Category == rows[i].Category
              && r[i].Price == rows[i].Price && r[i].Size == rows[i].Size
  {
    if |rows| == 0 then []
    else
      var row := rows[0];
      var ts := if row.Timestamp.Some? then toDateTime(row.Timestamp.value) else None;
      [Row(ts, row.Item, row.Category, row.Price, row.Size)]
      + ParseTimestamps(rows[1..], toDateTime)
  }

  /** `if not api_key` (line 36) passes: the variable is set and not empty. */
  predicate KeySet(apiKey: Option<string>) {
    apiKey.Some? && apiKey.value != ""
  }

  /** `run_smart_ocr`. `apiKey` is the GEMINI_API_KEY variable, `reply` the
      text of the model's answer (None when the call or the image open
      raised), `parseJson` stands for `json.loads` with `pd.DataFrame` (None
      when either raises), `toDateTime` for `pd.to_datetime` on one cell and
      `now` for the formatted current time. None is the failed extraction. */
  function Extract(apiKey: Option<string>, reply: Option<string>,
                   parseJson: string -> Option<seq<Row<string>>>,
                   toDateTime: string -> Option<DateTime>, now: string)
    : (r: Option<seq<Row<DateTime>>>)
    ensures r.Some? <==> KeySet(apiKey) && reply.Some?
                         && parseJson(CleanReply(reply.value)).Some?
    ensures r.Some? ==>
              var raw := parseJson(CleanReply(reply.value)).value;
              && |r.value| == |raw|
              && forall i :: 0 <= i < |raw| ==>
                   r.value[i] == Row(toDateTime(raw[i].Timestamp.GetOr(now)), raw[i].Item,
                                     raw[i].Category, raw[i].Price, raw[i].Size)
  {
    if apiKey.None? || apiKey.value == "" then None
    else if reply.None? then None
    else
      match parseJson(CleanReply(reply.value))
      case None => None
      case Some(raw) => Some(ParseTimestamps(DefaultTimestamps(raw, now), toDateTime))
  }
}
