/** The feed's show notes: placeholder tokens swapped for CDATA sections, one `replace` after another,
    in the finished document. */
module Feed {
  import opened Text

  const CDATA_TOKEN_PREFIX := "motet-cdata-placeholder"
  const CDATA_OPEN := "<![CDATA["
  const CDATA_CLOSE := "]]>"

  function Cdata(markup: string): string { CDATA_OPEN + markup + CDATA_CLOSE }

  /** `secrets.token_hex`. */
  predicate IsHex(s: string) { forall c | c in s :: IsDigit(c) || 'a' <= c <= 'f' }

  function Token(nonce: string, k: nat): string { CDATA_TOKEN_PREFIX + "-" + nonce + "-" + Dec(k) }

  /** One entry of the `pending` dict, in insertion order. */
  datatype Entry = Entry(token: string, markup: string)

  /** The first `n` replacements, in order. */
  function Substituted(document: string, pending: seq<Entry>, n: nat): string
    requires n <= |pending| && forall e | e in pending :: e.token != ""
  {
    if n == 0 then document
    else Replace(Substituted(document, pending, n - 1), pending[n - 1].token, Cdata(pending[n - 1].markup))
  }

  /** The substitution loop of `render_feed`. */
  method Substitute(serialized: string, pending: seq<Entry>) returns (document: string)
    requires forall e | e in pending :: e.token != ""
    ensures document == Substituted(serialized, pending, |pending|)
  {
    document := serialized;
    for i := 0 to |pending|
      invariant document == Substituted(serialized, pending, i)
    {
      assert pending[i] in pending;
      document := Replace(document, pending[i].token, Cdata(pending[i].markup));
    }
  }

  // ---- The serialized document ----

  /** The document around the placeholders: what comes before the first, and what follows each, which
      opens with the element's end tag. */
  datatype Frame = Frame(head: string, after: seq<string>)

  /** The document with `fill(k)` where the k-th placeholder was. */
  function Expand(after: seq<string>, from: nat, fill: nat -> string): string
    requires from <= |after|
    decreases |after| - from
  {
    if from == |after| then "" else fill(from) + (after[from] + Expand(after, from + 1, fill))
  }

  /** The placeholders, and what each should become. */
  function TokenAt(pending: seq<Entry>, k: nat): string { if k < |pending| then pending[k].token else "" }

  function OwnSection(markups: seq<string>, k: nat): string { if k < |markups| then Cdata(markups[k]) else "" }

  function Document(frame: Frame, fill: nat -> string): string { frame.head + Expand(frame.after, 0, fill) }

  /** Nothing but the placeholders spells a token: not the markup, not the rest of the document. That is
      what the random nonce is for. */
  ghost predicate Unmistakable(frame: Frame, pending: seq<Entry>) {
    forall e | e in pending ::
      && !Contains(frame.head, e.token)
      && (forall s | s in frame.after :: !Contains(s, e.token))
      && (forall d | d in pending :: !Contains(d.markup, e.token))
  }

  predicate EndTags(frame: Frame) { forall s | s in frame.after :: s != "" && s[0] == '<' }

  /** What a token is made of: an `m`, then characters that are neither `m`, `<` nor `]`. */
  predicate TokenShape(t: string) {
    t != "" && t[0] == 'm' && forall c | c in t[1..] :: c != 'm' && c != '<' && c != ']'
  }

  predicate TokenShapes(pending: seq<Entry>) { forall e | e in pending :: TokenShape(e.token) }

  // ---- What the loop does to a placeholder ----

  /** The first entry whose token is a prefix of entry k's: the one that rewrites placeholder k. */
  function FirstPrefix(pending: seq<Entry>, k: nat, from: nat): (j: nat)
    requires from <= k < |pending|
    ensures from <= j <= k && pending[j].token <= pending[k].token
    ensures forall i | from <= i < j :: !(pending[i].token <= pending[k].token)
    decreases k - from
  {
    if from == k || pending[from].token <= pending[k].token then from else FirstPrefix(pending, k, from + 1)
  }

  /** Placeholder k once the first n entries have been substituted. */
  function Filled(pending: seq<Entry>, n: nat, k: nat): string {
    if k >= |pending| then ""
    else
      var j := FirstPrefix(pending, k, 0);
      if j < n then Cdata(pending[j].markup) + pending[k].token[|pending[j].token|..] else pending[k].token
  }

  /** A token does not match where the text has no `m`, or has a character no token goes on with. */
  lemma NotAt(s: string, i: nat, j: nat, t: string)
    requires TokenShape(t) && i <= |s|
    requires i == |s| || s[i] != 'm' || |s| < i + |t|
             || (i < j < i + |t| && (s[j] == 'm' || s[j] == '<' || s[j] == ']'))
    ensures !StartsWith(s[i..], t)
  {
    assert i < j < i + |t| <= |s| ==> s[i..][j - i] == s[j] && t[j - i] in t[1..] by {
      assert i < j < i + |t| ==> t[j - i] == t[1..][j - i - 1];
    }
  }

  /** A token cannot start in `a` and run into `b` when `b` opens with an `m` or a `<`. */
  lemma ApartAt(a: string, b: string, t: string)
    requires TokenShape(t) && (b == "" || b[0] == 'm' || b[0] == '<')
    ensures Apart(a, b, t)
  {
    forall i | 0 <= i < |a| && i + |t| > |a|
      ensures !StartsWith((a + b)[i..], t)
    {
      NotAt(a + b, i, |a|, t);
    }
  }

  lemma NoTokenWithoutM(s: string, t: string)
    requires TokenShape(t) && 'm' !in s
    ensures !Contains(s, t)
  {
    forall i | 0 <= i <= |s|
      ensures !StartsWith(s[i..], t)
    {
      NotAt(s, i, 0, t);
    }
  }

  /** A finished section spells no token: its brackets are in none, and its markup has none. */
  lemma SectionHasNone(t: string, markup: string, rest: string)
    requires TokenShape(t) && !Contains(markup, t) && 'm' !in rest
    ensures !Contains(Cdata(markup) + rest, t)
  {
    var s := Cdata(markup) + rest;
    var open, close := |CDATA_OPEN|, |CDATA_OPEN| + |markup|;
    assert s == CDATA_OPEN + (markup + (CDATA_CLOSE + rest));
    assert s[close] == ']' && s[close + 1] == ']' && s[close + 2] == '>';
    assert forall k | 0 <= k < open :: s[k] == CDATA_OPEN[k] && s[k] != 'm';
    forall i | 0 <= i <= |s|
      ensures !StartsWith(s[i..], t)
    {
      if open <= i < close && i + |t| <= close {
        assert markup[i - open..][..|t|] == s[i..][..|t|];
        assert !StartsWith(markup[i - open..], t);
      } else {
        assert i >= close + 3 && i < |s| ==> s[i] in rest;
        NotAt(s, i, close, t);
      }
    }
  }

  /** One replacement rewrites exactly the placeholders it is the first prefix of. */
  lemma FilledStep(pending: seq<Entry>, n: nat, k: nat)
    requires n < |pending| && k < |pending| && TokenShapes(pending)
    requires forall e, d | e in pending && d in pending :: !Contains(d.markup, e.token)
    ensures Replace(Filled(pending, n, k), pending[n].token, Cdata(pending[n].markup)) == Filled(pending, n + 1, k)
  {
    var j := FirstPrefix(pending, k, 0);
    var t, u := pending[n].token, pending[k].token;
    assert pending[n] in pending && pending[k] in pending && pending[j] in pending;
    if j < n {
      var rest := u[|pending[j].token|..];
      forall c | c in rest
        ensures c != 'm'
      {
        assert c in u[1..];
      }
      SectionHasNone(t, pending[j].markup, rest);
      ReplaceNone(Filled(pending, n, k), t, Cdata(pending[n].markup));
    } else if j == n {
      assert forall c | c in u[|t|..] :: c in u[1..];
      NoTokenWithoutM(u[|t|..], t);
      ReplaceNone(u[|t|..], t, Cdata(pending[n].markup));
    } else {
      assert u == [u[0]] + u[1..] && !(t <= u);
      NoTokenWithoutM(u[1..], t);
      ReplaceNone(u[1..], t, Cdata(pending[n].markup));
    }
  }

  lemma FilledOpens(pending: seq<Entry>, n: nat, k: nat)
    requires k < |pending| && TokenShapes(pending)
    ensures Filled(pending, n, k) != "" && (Filled(pending, n, k)[0] == 'm' || Filled(pending, n, k)[0] == '<')
  {
    assert pending[k] in pending;
    var j := FirstPrefix(pending, k, 0);
    assert j < n ==> Filled(pending, n, k)[0] == CDATA_OPEN[0];
  }

  lemma ExpandOpens(after: seq<string>, from: nat, pending: seq<Entry>, n: nat)
    requires |after| == |pending| && from <= |after| && TokenShapes(pending)
    ensures var s := Expand(after, from, (k: nat) => Filled(pending, n, k)); s == "" || s[0] == 'm' || s[0] == '<'
  {
    if from < |after| {
      FilledOpens(pending, n, from);
    }
  }

  lemma {:induction false} ExpandStep(after: seq<string>, from: nat, pending: seq<Entry>, n: nat)
    requires n < |pending| == |after| && from <= |after| && TokenShapes(pending)
    requires forall s | s in after :: s != "" && s[0] == '<'
    requires Unmistakable(Frame("", after), pending)
    ensures Replace(Expand(after, from, (k: nat) => Filled(pending, n, k)), pending[n].token, Cdata(pending[n].markup))
         == Expand(after, from, (k: nat) => Filled(pending, n + 1, k))
    decreases |after| - from
  {
    if from < |after| {
      var t, r := pending[n].token, Cdata(pending[n].markup);
      var mine := Filled(pending, n, from);
      var tail := Expand(after, from + 1, (k: nat) => Filled(pending, n, k));
      assert pending[n] in pending && after[from] in after;
      FilledStep(pending, n, from);
      ExpandStep(after, from + 1, pending, n);
      ExpandOpens(after, from + 1, pending, n);
      ApartAt(after[from], tail, t);
      ReplaceAppend(after[from], tail, t, r);
      ReplaceNone(after[from], t, r);
      ApartAt(mine, after[from] + tail, t);
      ReplaceAppend(mine, after[from] + tail, t, r);
    }
  }

  lemma DocumentStep(frame: Frame, pending: seq<Entry>, n: nat)
    requires n < |pending| == |frame.after| && TokenShapes(pending) && EndTags(frame)
    requires Unmistakable(frame, pending)
    ensures Replace(Document(frame, (k: nat) => Filled(pending, n, k)), pending[n].token, Cdata(pending[n].markup))
         == Document(frame, (k: nat) => Filled(pending, n + 1, k))
  {
    var t, r := pending[n].token, Cdata(pending[n].markup);
    var body := Expand(frame.after, 0, (k: nat) => Filled(pending, n, k));
    assert pending[n] in pending;
    ExpandStep(frame.after, 0, pending, n);
    ExpandOpens(frame.after, 0, pending, n);
    ApartAt(frame.head, body, t);
    ReplaceAppend(frame.head, body, t, r);
    ReplaceNone(frame.head, t, r);
  }

  /** What the whole loop makes of the document: every placeholder filled by the first entry whose token
      is a prefix of its own, and followed by what is left of it. */
  lemma {:induction false} SubstitutedIs(frame: Frame, pending: seq<Entry>, n: nat)
    requires n <= |pending| == |frame.after| && TokenShapes(pending) && EndTags(frame)
    requires Unmistakable(frame, pending)
    ensures Substituted(Document(frame, (k: nat) => TokenAt(pending, k)), pending, n)
         == Document(frame, (k: nat) => Filled(pending, n, k))
  {
    if n == 0 {
      ExpandSame(frame.after, 0, (k: nat) => TokenAt(pending, k), (k: nat) => Filled(pending, 0, k));
    } else {
      SubstitutedIs(frame, pending, n - 1);
      DocumentStep(frame, pending, n - 1);
    }
  }

  function OwnMarkup(pending: seq<Entry>, k: nat): string {
    if k < |pending| then Cdata(pending[k].markup) else ""
  }

  /** In-order replacement is simultaneous substitution whenever no earlier token is a prefix of a later one:
      each placeholder becomes its own section, and nothing else changes. */
  lemma InOrderIsSimultaneous(frame: Frame, pending: seq<Entry>)
    requires |pending| == |frame.after| && TokenShapes(pending) && EndTags(frame) && Unmistakable(frame, pending)
    requires forall j, k | 0 <= j < k < |pending| :: !(pending[j].token <= pending[k].token)
    ensures Substituted(Document(frame, (k: nat) => TokenAt(pending, k)), pending, |pending|)
         == Document(frame, (k: nat) => OwnMarkup(pending, k))
  {
    SubstitutedIs(frame, pending, |pending|);
    forall k: nat | k < |pending|
      ensures Filled(pending, |pending|, k) == OwnMarkup(pending, k)
    {
      assert FirstPrefix(pending, k, 0) == k;
      assert pending[k].token[|pending[k].token|..] == "";
    }
    ExpandSame(frame.after, 0, (k: nat) => Filled(pending, |pending|, k), (k: nat) => OwnMarkup(pending, k));
  }

  lemma {:induction false} ExpandSame(after: seq<string>, from: nat, f: nat -> string, g: nat -> string)
    requires from <= |after| && forall k: nat | from <= k < |after| :: f(k) == g(k)
    ensures Expand(after, from, f) == Expand(after, from, g)
    decreases |after| - from
  {
    if from < |after| {
      ExpandSame(after, from + 1, f, g);
    }
  }

  // ---- The feed's own tokens ----

  /** `pending` as `render_feed` fills it: one entry an episode, the k-th under the k-th token. */
  predicate FeedEntries(pending: seq<Entry>, nonce: string) {
    forall k | 0 <= k < |pending| :: pending[k].token == Token(nonce, k)
  }

  function LeadingDigit(k: nat): nat { DigitValue(Dec(k)[0]) }

  lemma TokenHasTheShape(nonce: string, k: nat)
    requires IsHex(nonce)
    ensures TokenShape(Token(nonce, k))
  {
    var tail := TokenTail(nonce, k);
    PrefixHasTheShape();
    TokenIsPrefixAndTail(CDATA_TOKEN_PREFIX, nonce, k);
    ShapeOf(CDATA_TOKEN_PREFIX, tail);
  }

  lemma PrefixHasTheShape()
    ensures TokenShape(CDATA_TOKEN_PREFIX)
  {
    ShapeOf("m", "otet-cdata");
    ShapeOf("m" + "otet-cdata", "-placeholder");
    assert CDATA_TOKEN_PREFIX == "m" + "otet-cdata" + "-placeholder";
  }

  function TokenTail(nonce: string, k: nat): (tail: string)
    requires IsHex(nonce)
    ensures forall c | c in tail :: c != 'm' && c != '<' && c != ']'
  {
    "-" + nonce + "-" + Dec(k)
  }

  lemma TokenIsPrefixAndTail(prefix: string, nonce: string, k: nat)
    requires IsHex(nonce)
    ensures prefix + "-" + nonce + "-" + Dec(k) == prefix + TokenTail(nonce, k)
  {
  }

  lemma ShapeOf(prefix: string, tail: string)
    requires TokenShape(prefix) && forall c | c in tail :: c != 'm' && c != '<' && c != ']'
    ensures TokenShape(prefix + tail)
  {
    assert (prefix + tail)[1..] == prefix[1..] + tail;
  }

  lemma TokensHaveTheShape(pending: seq<Entry>, nonce: string)
    requires IsHex(nonce) && FeedEntries(pending, nonce)
    ensures TokenShapes(pending)
  {
    forall k | 0 <= k < |pending|
      ensures TokenShape(pending[k].token)
    {
      TokenHasTheShape(nonce, k);
    }
  }

  /** The tokens of one feed are prefixes of one another exactly as their numbers are. */
  lemma TokenPrefix(nonce: string, j: nat, k: nat)
    ensures Token(nonce, j) <= Token(nonce, k) <==> Dec(j) <= Dec(k)
    ensures Dec(j) <= Dec(k) ==> Token(nonce, k)[|Token(nonce, j)|..] == Dec(k)[|Dec(j)|..]
  {
    var base := CDATA_TOKEN_PREFIX + "-" + nonce + "-";
    assert Token(nonce, j) == base + Dec(j) && Token(nonce, k) == base + Dec(k);
    PrefixUnderBase(base, Dec(j), Dec(k));
  }

  lemma PrefixUnderBase(base: string, a: string, b: string)
    ensures base + a <= base + b <==> a <= b
    ensures a <= b ==> (base + b)[|base + a|..] == b[|a|..]
  {
    if base + a <= base + b {
      assert a == (base + a)[|base|..] == (base + b)[..|base + a|][|base|..] == b[..|a|];
    }
  }

  lemma {:induction false} DecHead(k: nat)
    ensures LeadingDigit(k) <= k && Dec(LeadingDigit(k)) == Dec(k)[..1]
    ensures k < 10 <==> |Dec(k)| == 1
    ensures k < 10 ==> LeadingDigit(k) == k
  {
    if k >= 10 {
      DecHead(k / 10);
      assert Dec(k)[0] == Dec(k / 10)[0];
    }
  }

  /** The first token that is a prefix of the k-th is its leading digit's. */
  lemma FirstPrefixIsLeadingDigit(pending: seq<Entry>, nonce: string, k: nat)
    requires k < |pending| && FeedEntries(pending, nonce)
    ensures FirstPrefix(pending, k, 0) == LeadingDigit(k)
  {
    var d, j := LeadingDigit(k), FirstPrefix(pending, k, 0);
    DecHead(k);
    TokenPrefix(nonce, d, k);
    assert Dec(k)[..1] <= Dec(k);
    assert j <= d;
    TokenPrefix(nonce, j, k);
    DecHead(j);
    assert Dec(j)[..1] == Dec(k)[..1];
    assert d < 10 && j < 10;
  }

  /** What episode k's element holds when the loop is done. */
  function ItemBody(markups: seq<string>, k: nat): string {
    if k >= |markups| then "" else
      DecHead(k);
      Cdata(markups[LeadingDigit(k)]) + Dec(k)[1..]
  }

  lemma FilledIsItemBody(pending: seq<Entry>, nonce: string, markups: seq<string>, k: nat)
    requires k < |pending| == |markups| && FeedEntries(pending, nonce)
    requires forall k | 0 <= k < |pending| :: pending[k].markup == markups[k]
    ensures Filled(pending, |pending|, k) == ItemBody(markups, k)
  {
    FirstPrefixIsLeadingDigit(pending, nonce, k);
    DecHead(k);
    TokenPrefix(nonce, LeadingDigit(k), k);
    assert Dec(k)[..1] <= Dec(k);
  }

  /** What `render_feed` is given: the notes of each episode, under its token, in a document that spells
      no token of its own. */
  ghost predicate FeedRun(frame: Frame, pending: seq<Entry>, nonce: string, markups: seq<string>) {
    && IsHex(nonce) && FeedEntries(pending, nonce) && EndTags(frame)
    && |markups| == |pending| == |frame.after|
    && (forall k | 0 <= k < |pending| :: pending[k].markup == markups[k])
    && Unmistakable(frame, pending)
  }

  lemma TokensAreNotEmpty(pending: seq<Entry>, nonce: string)
    requires IsHex(nonce) && FeedEntries(pending, nonce)
    ensures forall e | e in pending :: e.token != ""
  {
    TokensHaveTheShape(pending, nonce);
  }

  /** For any number of episodes: item k gets the notes of its number's leading digit, and the number's
      other digits after them. */
  lemma SequentialSubstitution(frame: Frame, pending: seq<Entry>, nonce: string, markups: seq<string>)
    requires FeedRun(frame, pending, nonce, markups)
    ensures forall e | e in pending :: e.token != ""
    ensures Substituted(Document(frame, (k: nat) => TokenAt(pending, k)), pending, |pending|)
         == Document(frame, (k: nat) => ItemBody(markups, k))
  {
    TokensAreNotEmpty(pending, nonce);
    FilledBySubstitution(frame, pending, nonce, markups);
    forall k: nat | k < |frame.after|
      ensures Filled(pending, |pending|, k) == ItemBody(markups, k)
    {
      FilledIsItemBody(pending, nonce, markups, k);
    }
    ExpandSame(frame.after, 0, (k: nat) => Filled(pending, |pending|, k), (k: nat) => ItemBody(markups, k));
  }

  lemma FilledBySubstitution(frame: Frame, pending: seq<Entry>, nonce: string, markups: seq<string>)
    requires FeedRun(frame, pending, nonce, markups)
    requires forall e | e in pending :: e.token != ""
    ensures Substituted(Document(frame, (k: nat) => TokenAt(pending, k)), pending, |pending|)
         == Document(frame, (k: nat) => Filled(pending, |pending|, k))
  {
    TokensHaveTheShape(pending, nonce);
    SubstitutedIs(frame, pending, |pending|);
  }

  /** Exactly the first ten episodes carry their own show notes and nothing else. */
  lemma OwnNotesIffFirstTen(markups: seq<string>, k: nat)
    requires k < |markups|
    ensures ItemBody(markups, k) == Cdata(markups[k]) <==> k < 10
  {
    DecHead(k);
    var d := LeadingDigit(k);
    if k < 10 {
      assert Dec(k)[1..] == "";
      assert Cdata(markups[d]) + "" == Cdata(markups[d]);
    } else {
      var rest := Dec(k)[1..];
      var body := ItemBody(markups, k);
      assert rest != "" && body[|body| - 1] == rest[|rest| - 1] == Dec(k)[|Dec(k)| - 1];
      assert IsDigit(body[|body| - 1]);
      assert Cdata(markups[k])[|Cdata(markups[k])| - 1] == '>';
    }
  }

  /** Up to ten episodes the loop is the simultaneous substitution. */
  lemma TenEpisodesAreSubstitutedTogether(frame: Frame, pending: seq<Entry>, nonce: string, markups: seq<string>)
    requires FeedRun(frame, pending, nonce, markups) && |markups| <= 10
    ensures forall e | e in pending :: e.token != ""
    ensures Substituted(Document(frame, (k: nat) => TokenAt(pending, k)), pending, |pending|)
         == Document(frame, (k: nat) => OwnSection(markups, k))
  {
    SequentialSubstitution(frame, pending, nonce, markups);
    OwnSections(frame, markups);
  }

  lemma OwnSections(frame: Frame, markups: seq<string>)
    requires |frame.after| == |markups| <= 10
    ensures Document(frame, (k: nat) => ItemBody(markups, k)) == Document(frame, (k: nat) => OwnSection(markups, k))
  {
    forall k: nat | k < |markups|
      ensures ItemBody(markups, k) == OwnSection(markups, k)
    {
      OwnNotesIffFirstTen(markups, k);
    }
    ExpandSame(frame.after, 0, (k: nat) => ItemBody(markups, k), (k: nat) => OwnSection(markups, k));
  }

  /** The eleventh episode carries the second's notes, and a stray zero. */
  lemma EleventhEpisode(markups: seq<string>)
    requires |markups| > 10
    ensures ItemBody(markups, 10) == Cdata(markups[1]) + "0"
  {
    assert Dec(10) == Dec(1) + [Digit(0)] == [Digit(1)] + [Digit(0)];
    assert Digit(0) == '0';
  }

  // ---- Escaping ----

  /** `_escape`: four replacements in order. */
  function Escape(text: string): string {
    Replace(Replace(Replace(Replace(text, "&", "&amp;"), "<", "&lt;"), ">", "&gt;"), "]]>", "]]&gt;")
  }

  function EscapeChar(c: char): string {
    if c == '&' then "&amp;" else if c == '<' then "&lt;" else if c == '>' then "&gt;" else [c]
  }

  function EscapeEach(text: string): string {
    if text == "" then "" else EscapeChar(text[0]) + EscapeEach(text[1..])
  }

  /** The first three replacements, on one character. */
  lemma ThreeReplacesOf(c: char)
    ensures Replace(Replace(Replace([c], "&", "&amp;"), "<", "&lt;"), ">", "&gt;") == EscapeChar(c)
  {
    ReplaceCharOf(c, '&', "&amp;");
    ReplaceCharOf(c, '<', "&lt;");
    ReplaceCharOf(c, '>', "&gt;");
    if c == '&' {
      NothingToReplace("&amp;", '<', "&lt;");
      NothingToReplace("&amp;", '>', "&gt;");
    } else if c == '<' {
      NothingToReplace("&lt;", '>', "&gt;");
    }
  }

  lemma {:induction false} ThreeReplaces(text: string)
    ensures Replace(Replace(Replace(text, "&", "&amp;"), "<", "&lt;"), ">", "&gt;") == EscapeEach(text)
  {
    if text != "" {
      var first, rest := [text[0]], text[1..];
      assert text == first + rest;
      ReplaceCharAppend(first, rest, '&', "&amp;");
      ReplaceCharAppend(Replace(first, "&", "&amp;"), Replace(rest, "&", "&amp;"), '<', "&lt;");
      ReplaceCharAppend(Replace(Replace(first, "&", "&amp;"), "<", "&lt;"),
                        Replace(Replace(rest, "&", "&amp;"), "<", "&lt;"), '>', "&gt;");
      ThreeReplacesOf(text[0]);
      ThreeReplaces(rest);
    }
  }

  lemma {:induction false} EscapedHasNoBrackets(text: string)
    ensures '<' !in EscapeEach(text) && '>' !in EscapeEach(text)
  {
    if text != "" {
      EscapedHasNoBrackets(text[1..]);
    }
  }

  /** The four ordered replacements are one per-character escape: the last finds nothing left to do, so
      no escaped text can close the section it ends up in, or open a tag there. */
  lemma EscapeIsPerCharacter(text: string)
    ensures Escape(text) == EscapeEach(text)
    ensures '<' !in Escape(text) && '>' !in Escape(text) && !Contains(Escape(text), CDATA_CLOSE)
  {
    ThreeReplaces(text);
    EscapedHasNoBrackets(text);
    var escaped := EscapeEach(text);
    forall i | 0 <= i <= |escaped|
      ensures !StartsWith(escaped[i..], "]]>")
    {
      assert i + 2 < |escaped| ==> escaped[i..][2] == escaped[i + 2] && escaped[i + 2] in escaped;
    }
    ReplaceNone(escaped, "]]>", "]]&gt;");
  }

  /** What a reader of XML makes of text: the three entities, and any other character as itself. */
  function Unescaped(s: string): string
    decreases |s|
  {
    if s == "" then ""
    else if "&amp;" <= s then "&" + Unescaped(s[5..])
    else if "&lt;" <= s then "<" + Unescaped(s[4..])
    else if "&gt;" <= s then ">" + Unescaped(s[4..])
    else [s[0]] + Unescaped(s[1..])
  }

  lemma UnescapedStep(c: char, tail: string)
    ensures Unescaped(EscapeChar(c) + tail) == [c] + Unescaped(tail)
  {
    var s := EscapeChar(c) + tail;
    assert s[|EscapeChar(c)|..] == tail;
    assert c == '&' ==> "&amp;" <= s;
    assert c == '<' ==> "&lt;" <= s && s[1] == 'l';
    assert c == '>' ==> "&gt;" <= s && s[1] == 'g';
    assert c != '&' && c != '<' && c != '>' ==> s[0] == c;
  }

  /** An escaped text is read as the text. */
  lemma {:induction false} EscapedReadsBack(text: string)
    ensures Unescaped(Escape(text)) == text
  {
    EscapeIsPerCharacter(text);
    if text != "" {
      EscapedReadsBack(text[1..]);
      EscapeIsPerCharacter(text[1..]);
      UnescapedStep(text[0], EscapeEach(text[1..]));
    }
  }

  // ---- The finished document ----

  /** Characters XML 1.0 allows. */
  predicate IsXmlChar(c: char) {
    c == '\t' || c == '\n' || c == '\r' || (' ' <= c && c != '\U{fffe}' && c != '\U{ffff}')
  }

  function Kept(c: char): string { if IsXmlChar(c) then [c] else "" }

  /** `_xml_safe`. */
  function XmlSafe(s: string): string {
    if s == "" then "" else Kept(s[0]) + XmlSafe(s[1..])
  }

  lemma {:induction false} XmlSafeAppend(a: string, b: string)
    ensures XmlSafe(a + b) == XmlSafe(a) + XmlSafe(b)
  {
    if a == "" {
      assert a + b == b;
    } else {
      assert (a + b)[1..] == a[1..] + b;
      XmlSafeAppend(a[1..], b);
      Associate(Kept(a[0]), XmlSafe(a[1..]), XmlSafe(b));
    }
  }

  lemma {:induction false} XmlSafePlain(s: string)
    requires forall c | c in s :: IsXmlChar(c)
    ensures XmlSafe(s) == s
  {
    if s != "" {
      XmlSafePlain(s[1..]);
      assert s == [s[0]] + s[1..];
    }
  }

  /** The finished document has no character XML forbids, and has lost none other. */
  lemma {:induction false} XmlSafeIsSafe(s: string)
    ensures forall c :: c in XmlSafe(s) <==> c in s && IsXmlChar(c)
    ensures XmlSafe(XmlSafe(s)) == XmlSafe(s)
  {
    if s != "" {
      XmlSafeIsSafe(s[1..]);
      assert s == [s[0]] + s[1..];
    }
    XmlSafePlain(XmlSafe(s));
  }

  lemma XmlSafeBetween(open: string, markup: string, close: string, tail: string)
    requires forall c | c in open + close :: IsXmlChar(c)
    ensures XmlSafe(open + markup + close + tail) == open + XmlSafe(markup) + close + XmlSafe(tail)
  {
    XmlSafeAppend(open + markup + close, tail);
    XmlSafeAppend(open + markup, close);
    XmlSafeAppend(open, markup);
    assert forall c | c in open :: c in open + close;
    assert forall c | c in close :: c in open + close;
    XmlSafePlain(open);
    XmlSafePlain(close);
  }

  /** Cleaning the finished document cleans each section's body and leaves its brackets standing. */
  lemma XmlSafeSection(markup: string, tail: string)
    ensures XmlSafe(Cdata(markup) + tail) == Cdata(XmlSafe(markup)) + XmlSafe(tail)
  {
    XmlSafeBetween(CDATA_OPEN, markup, CDATA_CLOSE, tail);
  }

  // ---- The feed ----

  /** What `pending` is to hold: each episode's notes, under the token of its place. */
  function Entries(markups: seq<string>, nonce: string): (pending: seq<Entry>)
    ensures FeedEntries(pending, nonce) && |pending| == |markups|
  {
    seq(|markups|, k requires 0 <= k < |markups| => Entry(Token(nonce, k), markups[k]))
  }

  lemma TokensDiffer(nonce: string, j: nat, k: nat)
    requires j != k
    ensures Token(nonce, j) != Token(nonce, k)
  {
    var base := CDATA_TOKEN_PREFIX + "-" + nonce + "-";
    ValueDec(j);
    ValueDec(k);
    assert Token(nonce, j)[|base|..] == Dec(j) && Token(nonce, k)[|base|..] == Dec(k);
  }

  /** `_cdata`: the element gets a token no entry has yet, so the dict gains an entry and loses none. */
  method AddCdata(pending: seq<Entry>, nonce: string, markup: string) returns (after: seq<Entry>, token: string)
    requires FeedEntries(pending, nonce)
    ensures forall e | e in pending :: e.token != token
    ensures FeedEntries(after, nonce) && after == pending + [Entry(token, markup)]
  {
    token := CDATA_TOKEN_PREFIX + "-" + nonce + "-" + Dec(|pending|);
    after := pending + [Entry(token, markup)];
    forall k | 0 <= k < |pending|
      ensures pending[k].token != token
    {
      TokensDiffer(nonce, k, |pending|);
    }
  }

  /** The loop over episodes: every episode's notes, in order, each under its own token. */
  method Placeholders(markups: seq<string>, nonce: string) returns (pending: seq<Entry>)
    ensures pending == Entries(markups, nonce)
  {
    pending := [];
    for k := 0 to |markups|
      invariant pending == Entries(markups, nonce)[..k]
      invariant FeedEntries(pending, nonce)
    {
      var token;
      pending, token := AddCdata(pending, nonce, markups[k]);
    }
  }

  /** `render_feed` from its episodes' notes on: for any number of episodes, item k carries the notes of its
      number's leading digit and the number's other digits; and up to ten, its own notes and nothing else. */
  method RenderFeed(frame: Frame, nonce: string, markups: seq<string>) returns (document: string)
    requires FeedRun(frame, Entries(markups, nonce), nonce, markups)
    ensures document == XmlSafe(Document(frame, (k: nat) => ItemBody(markups, k)))
    ensures |markups| <= 10 ==> document == XmlSafe(Document(frame, (k: nat) => OwnSection(markups, k)))
  {
    var pending := Placeholders(markups, nonce);
    document := Document(frame, (k: nat) => TokenAt(pending, k));
    SequentialSubstitution(frame, pending, nonce, markups);
    if |markups| <= 10 {
      OwnSections(frame, markups);
    }
    document := Substitute(document, pending);
    document := XmlSafe(document);
  }
}
