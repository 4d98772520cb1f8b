/** email-service: escaping of what goes into the receipt's HTML. */
module ReceiptTemplate {
  /** The entity of a special character, any other character as it is. */
  function Entity(c: char): string {
    match c
    case '&' => "&amp;"
    case '<' => "&lt;"
    case '>' => "&gt;"
    case '"' => "&quot;"
    case '\'' => "&#39;"
    case _ => [c]
  }

  function Escape(value: string): string {
    if value == "" then "" else Entity(value[0]) + Escape(value[1..])
  }

  /** An HTML reader that knows the five entities, and leaves any other text alone. */
  function Decode(html: string): string
    decreases |html|
  {
    if html == "" then ""
    else if "&amp;" <= html then "&" + Decode(html[5..])
    else if "&lt;" <= html then "<" + Decode(html[4..])
    else if "&gt;" <= html then ">" + Decode(html[4..])
    else if "&quot;" <= html then "\"" + Decode(html[6..])
    else if "&#39;" <= html then "'" + Decode(html[5..])
    else [html[0]] + Decode(html[1..])
  }

  lemma DecodeEntity(c: char, rest: string)
    ensures Decode(Entity(c) + rest) == [c] + Decode(rest)
  {
    var html := Entity(c) + rest;
    assert html[|Entity(c)|..] == rest;
    if c == '&' { assert "&amp;" <= html; }
    else if c == '<' { assert "&lt;" <= html; assert html[1] == 'l'; }
    else if c == '>' { assert "&gt;" <= html; assert html[1] == 'g'; }
    else if c == '"' { assert "&quot;" <= html; assert html[1] == 'q'; }
    else if c == '\'' { assert "&#39;" <= html; assert html[1] == '#'; }
    else { assert html[0] == c; }
  }

  /** Decoding gives back what was escaped. */
  lemma {:induction false} EscapeIsLossless(value: string)
    ensures Decode(Escape(value)) == value
  {
    if value != "" {
      EscapeIsLossless(value[1..]);
      DecodeEntity(value[0], Escape(value[1..]));
      assert value == [value[0]] + value[1..];
    }
  }

  lemma EscapeIsInjective(a: string, b: string)
    requires Escape(a) == Escape(b)
    ensures a == b
  {
    EscapeIsLossless(a);
    EscapeIsLossless(b);
  }

  lemma {:induction false} EscapeDistributes(a: string, b: string)
    ensures Escape(a + b) == Escape(a) + Escape(b)
  {
    if a == "" {
      assert a + b == b;
    } else {
      assert (a + b)[0] == a[0] && (a + b)[1..] == a[1..] + b;
      EscapeDistributes(a[1..], b);
    }
  }

  predicate IsMarkup(c: char) {
    c == '<' || c == '>' || c == '"' || c == '\''
  }

  /** No raw angle bracket or quote is left. */
  lemma {:induction false} NoMarkupSurvives(value: string)
    ensures forall c | c in Escape(value) :: !IsMarkup(c)
  {
    if value != "" {
      NoMarkupSurvives(value[1..]);
      forall c | c in Entity(value[0]) ensures !IsMarkup(c) {}
    }
  }

  /** The markup characters of `html`, in their order. */
  function Markup(html: string): string {
    if html == "" then "" else (if IsMarkup(html[0]) then [html[0]] else "") + Markup(html[1..])
  }

  lemma {:induction false} MarkupOfConcat(a: string, b: string)
    ensures Markup(a + b) == Markup(a) + Markup(b)
  {
    if a == "" {
      assert a + b == b;
    } else {
      assert (a + b)[0] == a[0] && (a + b)[1..] == a[1..] + b;
      MarkupOfConcat(a[1..], b);
    }
  }

  lemma {:induction false} NoMarkupMeansNone(s: string)
    requires forall c | c in s :: !IsMarkup(c)
    ensures Markup(s) == ""
  {
    if s != "" {
      assert s[0] in s;
      forall c | c in s[1..] ensures c in s {}
      NoMarkupMeansNone(s[1..]);
    }
  }

  // ---------------------------------------------------------------------------------------------
  // The page: literal pieces with escaped values between them
  // ---------------------------------------------------------------------------------------------

  /** `pieces[0] + Escape(values[0]) + pieces[1] + ... + Escape(values[n-1]) + pieces[n]` */
  function Page(pieces: seq<string>, values: seq<string>): string
    requires |pieces| == |values| + 1
  {
    if values == [] then pieces[0]
    else pieces[0] + Escape(values[0]) + Page(pieces[1..], values[1..])
  }

  function MarkupOfPieces(pieces: seq<string>): string {
    if pieces == [] then "" else Markup(pieces[0]) + MarkupOfPieces(pieces[1..])
  }

  /** Whatever the rider is called and whatever the ride was, the page has the markup of its literal pieces. */
  lemma {:induction false} ValuesNeverAddMarkup(pieces: seq<string>, values: seq<string>)
    requires |pieces| == |values| + 1
    ensures Markup(Page(pieces, values)) == MarkupOfPieces(pieces)
  {
    if values == [] {
      assert pieces[1..] == [];
    } else {
      MarkupOfConcat(pieces[0], Escape(values[0]));
      NoMarkupSurvives(values[0]);
      NoMarkupMeansNone(Escape(values[0]));
      MarkupOfConcat(pieces[0] + Escape(values[0]), Page(pieces[1..], values[1..]));
      ValuesNeverAddMarkup(pieces[1..], values[1..]);
    }
  }

  /** No value can be mistaken for another: when the literal pieces begin with markup, the page gives back every
      value. */
  lemma {:induction false} PageGivesBackItsValues(pieces: seq<string>, v: seq<string>, w: seq<string>)
    requires |pieces| == |v| + 1 && |v| == |w|
    requires forall i | 1 <= i < |pieces| :: pieces[i] != "" && IsMarkup(pieces[i][0])
    requires Page(pieces, v) == Page(pieces, w)
    ensures v == w
    decreases |v|
  {
    if v != [] {
      var p, q := Page(pieces[1..], v[1..]), Page(pieces[1..], w[1..]);
      PageStarts(pieces[1..], v[1..]);
      PageStarts(pieces[1..], w[1..]);
      FirstValue(pieces[0], v[0], p, w[0], q);
      PageGivesBackItsValues(pieces[1..], v[1..], w[1..]);
      assert v == [v[0]] + v[1..] && w == [w[0]] + w[1..];
    }
  }

  lemma FirstValue(piece: string, a: string, p: string, b: string, q: string)
    requires piece + Escape(a) + p == piece + Escape(b) + q
    requires p != "" && q != "" && IsMarkup(p[0]) && IsMarkup(q[0])
    ensures a == b && p == q
  {
    DropPiece(piece, Escape(a), p, Escape(b), q);
    NoMarkupSurvives(a);
    NoMarkupSurvives(b);
    SplitAtMarkup(Escape(a), p, Escape(b), q);
    EscapeIsInjective(a, b);
  }

  lemma DropPiece(piece: string, x: string, p: string, y: string, q: string)
    requires piece + x + p == piece + y + q
    ensures x + p == y + q
  {
    assert (piece + x + p)[|piece|..] == x + p;
    assert (piece + y + q)[|piece|..] == y + q;
  }

  lemma SplitAtMarkup(a: string, p: string, b: string, q: string)
    requires a + p == b + q && p != "" && q != "" && IsMarkup(p[0]) && IsMarkup(q[0])
    requires (forall c | c in a :: !IsMarkup(c)) && (forall c | c in b :: !IsMarkup(c))
    ensures a == b && p == q
  {
    var whole := a + p;
    assert whole[|a|] == p[0] && whole[|b|] == q[0];
    assert forall i | 0 <= i < |a| :: whole[i] == a[i];
    assert forall i | 0 <= i < |b| :: whole[i] == b[i];
    assert |a| == |b|;
    assert whole[..|a|] == a && whole[..|b|] == b && whole[|a|..] == p && whole[|b|..] == q;
  }

  lemma PageStarts(pieces: seq<string>, values: seq<string>)
    requires |pieces| == |values| + 1
    ensures pieces[0] <= Page(pieces, values)
  {
  }

  /** `part` is somewhere on the page. */
  ghost predicate Holds(page: string, part: string) {
    exists i, j :: 0 <= i <= j <= |page| && page[i..j] == part
  }

  predicate EndsWith(text: string, end: string) {
    |end| <= |text| && text[|text| - |end|..] == end
  }

  lemma HoldsBetween(piece: string, value: string, rest: string, caption: string, tag: string)
    requires EndsWith(piece, caption) && tag <= rest
    ensures Holds(piece + value + rest, caption + value + tag)
  {
    var page, n := piece + value + rest, |piece| - |caption|;
    assert page[n..|piece| + |value| + |tag|] == piece[n..] + value + rest[..|tag|];
  }

  lemma HoldsFurther(before: string, page: string, part: string)
    requires Holds(page, part)
    ensures Holds(before + page, part)
  {
    var i, j :| 0 <= i <= j <= |page| && page[i..j] == part;
    assert (before + page)[|before| + i..|before| + j] == part;
  }

  /** A value stands between the end of the piece before it and the beginning of the piece after it. */
  lemma {:induction false} ValueHasItsPlace(pieces: seq<string>, values: seq<string>, i: nat,
                                            caption: string, tag: string)
    requires |pieces| == |values| + 1 && i < |values|
    requires EndsWith(pieces[i], caption) && tag <= pieces[i + 1]
    ensures Holds(Page(pieces, values), caption + Escape(values[i]) + tag)
    decreases i
  {
    var rest := Page(pieces[1..], values[1..]);
    if i == 0 {
      PageStarts(pieces[1..], values[1..]);
      HoldsBetween(pieces[0], Escape(values[0]), rest, caption, tag);
    } else {
      ValueHasItsPlace(pieces[1..], values[1..], i - 1, caption, tag);
      HoldsFurther(pieces[0] + Escape(values[0]), rest, caption + Escape(values[i]) + tag);
    }
  }

  /** The receipt's values as already formatted text. */
  datatype ReceiptText = ReceiptText(riderName: string, total: string, pickup: string, destination: string,
                                     requested: string, completed: string, duration: string, rideId: string)

  const HEAD := "<!doctype html>\n<html><body style=\"font-family:Arial,sans-serif;background:#f6f6f6;padding:24px\">\n"
                + "  <div style=\"max-width:480px;margin:auto;background:#fff;border-radius:8px;padding:24px\">\n"
                + "    <h2 style=\"margin:0 0 4px\">"
  const THANKS := "Thanks for riding, "
  const END_NAME := "</h2>"
  const BETWEEN := "\n    <p style=\"color:#666;margin:0 0 16px\">Here is your fake-bolt receipt.</p>\n    "
  const BOLD := "<p style=\"font-size:28px;font-weight:bold;margin:0 0 16px\">"
  const END_TOTAL := "</p>"
  const TABLE := "\n    <table style=\"border-collapse:collapse;width:100%\">\n      "
  const END_ROW := "</td></tr>"
  const NEXT_ROW := "\n      "
  const TAIL := "\n    </table>\n  </div>\n</body></html>"

  function OpenRow(caption: string): string {
    "<tr><td style=\"padding:6px 12px;color:#666\">" + caption + "</td><td style=\"padding:6px 12px\">"
  }

  /** The template's literal pieces, given the texts around the captions. */
  function Pieces(head: string, between: string, table: string, next: string, tail: string): seq<string> {
    [head + THANKS,
     END_NAME + (between + BOLD),
     END_TOTAL + (table + OpenRow("From")),
     END_ROW + (next + OpenRow("To")),
     END_ROW + (next + OpenRow("Requested")),
     END_ROW + (next + OpenRow("Completed")),
     END_ROW + (next + OpenRow("Duration")),
     END_ROW + (next + OpenRow("Ride id")),
     END_ROW + tail]
  }

  function Values(r: ReceiptText): seq<string> {
    [r.riderName, r.total, r.pickup, r.destination, r.requested, r.completed, r.duration, r.rideId]
  }

  function Template(): seq<string> {
    Pieces(HEAD, BETWEEN, TABLE, NEXT_ROW, TAIL)
  }

  function RideReceiptHtml(r: ReceiptText): string {
    Page(Template(), Values(r))
  }

  /** Every receipt has exactly the markup characters of the template, in their order, whatever its values are. */
  lemma ReceiptMarkupIsFixed(r: ReceiptText)
    ensures Markup(RideReceiptHtml(r)) == MarkupOfPieces(Template())
  {
    ValuesNeverAddMarkup(Template(), Values(r));
  }

  lemma PiecesBeginWithMarkup(pieces: seq<string>, head: string, between: string, table: string, next: string,
                              tail: string)
    requires pieces == Pieces(head, between, table, next, tail)
    ensures forall i | 1 <= i < |pieces| :: pieces[i] != "" && IsMarkup(pieces[i][0])
  {
    assert END_NAME[0] == '<' && END_TOTAL[0] == '<' && END_ROW[0] == '<';
  }

  /** Two receipts with the same page are the same receipt. */
  lemma ReceiptIsReadable(r: ReceiptText, s: ReceiptText)
    requires RideReceiptHtml(r) == RideReceiptHtml(s)
    ensures r == s
  {
    var v, w := Values(r), Values(s);
    PiecesBeginWithMarkup(Template(), HEAD, BETWEEN, TABLE, NEXT_ROW, TAIL);
    PageGivesBackItsValues(Template(), v, w);
    assert v[0] == w[0] && v[1] == w[1] && v[2] == w[2] && v[3] == w[3];
    assert v[4] == w[4] && v[5] == w[5] && v[6] == w[6] && v[7] == w[7];
  }

  lemma EndOf(a: string, b: string, c: string)
    ensures EndsWith(a + (b + c), c) && EndsWith(b + c, c) && a <= a + (b + c)
  {
    assert (a + (b + c))[|a + b|..] == c && (b + c)[|b|..] == c;
  }

  lemma PiecesHoldCaptions(pieces: seq<string>, head: string, between: string, table: string, next: string,
                           tail: string)
    requires pieces == Pieces(head, between, table, next, tail)
    ensures EndsWith(pieces[0], THANKS) && END_NAME <= pieces[1]
    ensures EndsWith(pieces[1], BOLD) && END_TOTAL <= pieces[2]
    ensures EndsWith(pieces[2], OpenRow("From")) && EndsWith(pieces[3], OpenRow("To"))
    ensures EndsWith(pieces[4], OpenRow("Requested")) && EndsWith(pieces[5], OpenRow("Completed"))
    ensures EndsWith(pieces[6], OpenRow("Duration")) && EndsWith(pieces[7], OpenRow("Ride id"))
    ensures forall i | 3 <= i < 9 :: END_ROW <= pieces[i]
  {
    EndOf("", head, THANKS);
    EndOf(END_NAME, between, BOLD);
    EndOf(END_TOTAL, table, OpenRow("From"));
    EndOf(END_ROW, next, OpenRow("To"));
    EndOf(END_ROW, next, OpenRow("Requested"));
    EndOf(END_ROW, next, OpenRow("Completed"));
    EndOf(END_ROW, next, OpenRow("Duration"));
    EndOf(END_ROW, next, OpenRow("Ride id"));
  }

  /** Every value stands under its own caption: the name in the thanks, the total below it, and in each row of the
      table what its caption says. */
  lemma ValuesHaveTheirCaptions(r: ReceiptText)
    ensures var page := RideReceiptHtml(r);
            && Holds(page, THANKS + Escape(r.riderName) + END_NAME)
            && Holds(page, BOLD + Escape(r.total) + END_TOTAL)
            && Holds(page, OpenRow("From") + Escape(r.pickup) + END_ROW)
            && Holds(page, OpenRow("To") + Escape(r.destination) + END_ROW)
            && Holds(page, OpenRow("Requested") + Escape(r.requested) + END_ROW)
            && Holds(page, OpenRow("Completed") + Escape(r.completed) + END_ROW)
            && Holds(page, OpenRow("Duration") + Escape(r.duration) + END_ROW)
            && Holds(page, OpenRow("Ride id") + Escape(r.rideId) + END_ROW)
  {
    var pieces, values := Template(), Values(r);
    PiecesHoldCaptions(pieces, HEAD, BETWEEN, TABLE, NEXT_ROW, TAIL);
    ValueHasItsPlace(pieces, values, 0, THANKS, END_NAME);
    ValueHasItsPlace(pieces, values, 1, BOLD, END_TOTAL);
    ValueHasItsPlace(pieces, values, 2, OpenRow("From"), END_ROW);
    ValueHasItsPlace(pieces, values, 3, OpenRow("To"), END_ROW);
    ValueHasItsPlace(pieces, values, 4, OpenRow("Requested"), END_ROW);
    ValueHasItsPlace(pieces, values, 5, OpenRow("Completed"), END_ROW);
    ValueHasItsPlace(pieces, values, 6, OpenRow("Duration"), END_ROW);
    ValueHasItsPlace(pieces, values, 7, OpenRow("Ride id"), END_ROW);
  }
}
