/** The link splitter: user text into plain spans and `http` or `https` links. */
module Linkify {
  import opened Text
  import opened Wrappers

  datatype TextLink = Plain(text: string) | Href(text: string)

  /** `prefix` is in lower case. */
  predicate StartsWithIgnoringCase(s: string, prefix: string) {
    |s| >= |prefix| && Lower(s[..|prefix|]) == prefix
  }

  predicate HasScheme(s: string) {
    StartsWithIgnoringCase(s, "http://") || StartsWithIgnoringCase(s, "https://")
  }

  predicate Forbidden(c: char) {
    IsWhitespace(c) || IsControl(c) || c == '\\'
  }

  /** The trimmed URL when it may be put in an `href`. */
  function HttpHref(url: string): Option<string> {
    var trimmed := Trim(url);
    if trimmed == "" then None
    else if trimmed[0] <= '\U{1F}' then None
    else if !HasScheme(trimmed) then None
    else if exists i :: 0 <= i < |trimmed| && Forbidden(trimmed[i]) then None
    else Some(trimmed)
  }

  /** Exactly what may be linked, and it is linked as it stands: a second check changes nothing. */
  lemma {:induction false} HrefExactly(url: string, href: string)
    ensures HttpHref(url) == Some(href) <==>
      href == Trim(url) && HasScheme(href) && forall i :: 0 <= i < |href| ==> !Forbidden(href[i])
    ensures HttpHref(url) == Some(href) ==> HttpHref(href) == Some(href)
  {
    TrimTrims(url);
  }

  predicate IsTrailing(c: char) {
    c in ".,;:!?)]}>'\""
  }

  function TrimPunctuation(token: string): (url: string)
    ensures url <= token
  {
    if token != [] && IsTrailing(token[|token| - 1]) then TrimPunctuation(token[..|token| - 1]) else token
  }

  /** The URL of a token, and the sentence punctuation stuck to it. */
  function SplitTrailing(token: string): (string, string) {
    var url := TrimPunctuation(token);
    (url, token[|url|..])
  }

  predicate HttpUrlAt(content: string, i: nat)
    requires i <= |content|
  {
    !(i > 0 && IsAlphanumeric(content[i - 1])) && HasScheme(content[i..])
  }

  /** The first white space at or after `i`, or the end. */
  function TokenEnd(content: string, i: nat): (end: nat)
    requires i <= |content|
    ensures i <= end <= |content|
    ensures forall k :: i <= k < end ==> !IsWhitespace(content[k])
    ensures end < |content| ==> IsWhitespace(content[end])
    decreases |content| - i
  {
    if i == |content| || IsWhitespace(content[i]) then i else TokenEnd(content, i + 1)
  }

  // ------------------------------------------------------------------ What links

  /** A scheme boundary that lies in no earlier URL: no earlier boundary reaches it without a space. */
  ghost predicate TokenStart(content: string, p: nat)
    requires p < |content|
  {
    && HttpUrlAt(content, p)
    && forall q :: 0 <= q < p && HttpUrlAt(content, q) ==> exists k :: q <= k < p && IsWhitespace(content[k])
  }

  function UrlAt(content: string, p: nat): string
    requires p < |content|
  {
    TrimPunctuation(content[p..TokenEnd(content, p)])
  }

  ghost predicate LinkAt(content: string, p: nat) {
    p < |content| && TokenStart(content, p) && HttpHref(UrlAt(content, p)).Some?
  }

  function Joined(parts: seq<TextLink>): string {
    if parts == [] then [] else Joined(parts[..|parts| - 1]) + parts[|parts| - 1].text
  }

  /** Where part `k` begins. */
  function Offset(parts: seq<TextLink>, k: nat): nat
    requires k <= |parts|
  {
    |Joined(parts[..k])|
  }

  /** Where the links start, and their URLs. */
  ghost function Links(content: string): map<nat, string> {
    map p: nat | p < |content| && LinkAt(content, p) :: UrlAt(content, p)
  }

  // ----------------------------------------------------------------- Laying spans

  /** A non-empty stretch of the content, a link exactly when one starts there, and then its URL. */
  ghost predicate PartAt(content: string, links: map<nat, string>, p: nat, part: TextLink) {
    && part.text != "" && p + |part.text| <= |content| && part.text == content[p..p + |part.text|]
    && (part.Href? <==> p in links)
    && (part.Href? ==> part.text == links[p])
  }

  ghost predicate Sound(content: string, links: map<nat, string>, parts: seq<TextLink>) {
    forall k :: 0 <= k < |parts| ==> PartAt(content, links, Offset(parts, k), parts[k])
  }

  ghost predicate Complete(links: map<nat, string>, parts: seq<TextLink>, upTo: nat) {
    forall p :: p in links && p < upTo ==> exists k :: 0 <= k < |parts| && Offset(parts, k) == p
  }

  ghost predicate NoLinkAfter(links: map<nat, string>, p: nat, end: nat) {
    forall q :: p < q < end ==> q !in links
  }

  /** The parts cover the content up to `p`, soundly and completely. */
  ghost predicate Covers(content: string, links: map<nat, string>, parts: seq<TextLink>, p: nat) {
    p <= |content| && Joined(parts) == content[..p] && Sound(content, links, parts) && Complete(links, parts, p)
  }

  /** The same, part by part: each fits where the one before it ends, and no link starts inside it. */
  ghost predicate Tiled(content: string, links: map<nat, string>, parts: seq<TextLink>, p: int) {
    if parts == [] then p == 0
    else
      var last := parts[|parts| - 1];
      var q := p - |last.text|;
      q >= 0 && Tiled(content, links, parts[..|parts| - 1], q) && PartAt(content, links, q, last) && NoLinkAfter(links, q, p)
  }

  lemma {:induction false} PushTile(content: string, links: map<nat, string>, parts: seq<TextLink>, p: nat, part: TextLink, end: nat)
    requires Tiled(content, links, parts, p) && PartAt(content, links, p, part)
    requires end == p + |part.text| && NoLinkAfter(links, p, end)
    ensures Tiled(content, links, parts + [part], end)
  {
    assert (parts + [part])[..|parts|] == parts;
  }

  /** A token whose punctuation is a span of its own. */
  lemma {:induction false} PushTwo(content: string, links: map<nat, string>, parts: seq<TextLink>,
      p: nat, first: TextLink, q: nat, second: TextLink, end: nat)
    requires Tiled(content, links, parts, p) && NoLinkAfter(links, p, end)
    requires PartAt(content, links, p, first) && q == p + |first.text|
    requires PartAt(content, links, q, second) && end == q + |second.text|
    ensures Tiled(content, links, parts + [first] + [second], end)
  {
    PushTile(content, links, parts, p, first, q);
    PushTile(content, links, parts + [first], q, second, end);
  }

  lemma {:induction false} TiledLast(content: string, links: map<nat, string>, parts: seq<TextLink>, p: nat) returns (q: nat)
    requires Tiled(content, links, parts, p) && parts != []
    ensures
      var last := parts[|parts| - 1];
      && Tiled(content, links, parts[..|parts| - 1], q) && p == q + |last.text|
      && PartAt(content, links, q, last) && NoLinkAfter(links, q, p)
  {
    q := p - |parts[|parts| - 1].text|;
  }

  lemma {:induction false} NothingCovers(content: string, links: map<nat, string>)
    ensures Covers(content, links, [], 0)
  {
  }

  lemma {:induction false} TiledCovers(content: string, links: map<nat, string>, parts: seq<TextLink>, p: nat)
    requires Tiled(content, links, parts, p)
    ensures Covers(content, links, parts, p)
  {
    if parts == [] {
      NothingCovers(content, links);
    } else {
      var front, last := parts[..|parts| - 1], parts[|parts| - 1];
      var q := TiledLast(content, links, parts, p);
      TiledCovers(content, links, front, q);
      PushPart(content, links, front, q, last, p);
      FrontAndLast(parts);
    }
  }

  lemma {:induction false} FrontAndLast(parts: seq<TextLink>)
    requires parts != []
    ensures parts[..|parts| - 1] + [parts[|parts| - 1]] == parts
  {
  }

  lemma {:induction false} TiledSays(content: string, links: map<nat, string>, parts: seq<TextLink>)
    requires Tiled(content, links, parts, |content|)
    ensures Joined(parts) == content && Sound(content, links, parts) && Complete(links, parts, |content|)
  {
    TiledCovers(content, links, parts, |content|);
    assert content[..|content|] == content;
  }

  lemma {:induction false} PushPart(content: string, links: map<nat, string>, parts: seq<TextLink>, p: nat, part: TextLink, end: nat)
    requires Covers(content, links, parts, p) && PartAt(content, links, p, part)
    requires end == p + |part.text| && NoLinkAfter(links, p, end)
    ensures Covers(content, links, parts + [part], end)
  {
    assert (parts + [part])[..|parts|] == parts;
    assert content[..p] + part.text == content[..end];
    PushKeepsOffsets(parts, part);
    forall k | 0 <= k < |parts + [part]|
      ensures PartAt(content, links, Offset(parts + [part], k), (parts + [part])[k])
    {
      if k < |parts| {
        assert PartAt(content, links, Offset(parts, k), parts[k]);
      }
    }
    PushIsComplete(links, parts, p, part, end);
  }

  lemma {:induction false} PushIsComplete(links: map<nat, string>, parts: seq<TextLink>, p: nat, part: TextLink, end: nat)
    requires Complete(links, parts, p) && |Joined(parts)| == p && NoLinkAfter(links, p, end)
    ensures Complete(links, parts + [part], end)
  {
    PushKeepsOffsets(parts, part);
    forall q | q in links && q < end
      ensures exists k :: 0 <= k < |parts + [part]| && Offset(parts + [part], k) == q
    {
      if q < p {
        var k :| 0 <= k < |parts| && Offset(parts, k) == q;
        assert Offset(parts + [part], k) == q;
      } else {
        assert Offset(parts + [part], |parts|) == q;
      }
    }
  }

  lemma {:induction false} PushKeepsOffsets(parts: seq<TextLink>, part: TextLink)
    ensures forall k :: 0 <= k <= |parts| ==> Offset(parts + [part], k) == Offset(parts, k)
    ensures Offset(parts, |parts|) == |Joined(parts)|
  {
    assert parts[..|parts|] == parts;
    forall k | 0 <= k <= |parts|
      ensures Offset(parts + [part], k) == Offset(parts, k)
    {
      assert (parts + [part])[..k] == parts[..k];
    }
  }

  // ------------------------------------------------------------------- The split

  /** Text since `textStart` is pending, and no URL starts in it before `i`. */
  ghost predicate Scanned(content: string, textStart: nat, i: nat) {
    && textStart <= i <= |content|
    && (textStart == 0 || textStart == |content| || IsWhitespace(content[textStart]))
    && forall p :: textStart <= p < i ==> !HttpUrlAt(content, p)
  }

  /** The spans of `parts` make up the content, none is empty, and the links among them are exactly
      those of the content. */
  method LinkifyHttpSpans(content: string) returns (parts: seq<TextLink>)
    ensures Joined(parts) == content
    ensures Sound(content, Links(content), parts)
    ensures Complete(Links(content), parts, |content|)
  {
    parts := [];
    var textStart, i := 0, 0;
    while i < |content|
      invariant Scanned(content, textStart, i) && Tiled(content, Links(content), parts, textStart)
      decreases |content| - i
    {
      if HttpUrlAt(content, i) {
        StartsToken(content, textStart, i);
        if textStart < i {
          GapStep(content, parts, textStart, i);
          parts := parts + [Plain(content[textStart..i])];
        }
        UrlIsPart(content, i);
        TokenStep(content, parts, i);
        var end := TokenEnd(content, i);
        var token := content[i..end];
        var (url, trailing) := SplitTrailing(token);
        match HttpHref(url) {
          case Some(href) => parts := parts + [Href(href)];
          case None => parts := parts + [Plain(url)];
        }
        if trailing != "" {
          parts := parts + [Plain(trailing)];
        }
        i := end;
        textStart := i;
        continue;
      }
      ScanOn(content, textStart, i);
      i := i + 1;
    }
    if textStart < |content| {
      GapStep(content, parts, textStart, |content|);
      parts := parts + [Plain(content[textStart..|content|])];
    }
    TiledSays(content, Links(content), parts);
  }

  lemma {:induction false} ScanOn(content: string, textStart: nat, i: nat)
    requires Scanned(content, textStart, i) && i < |content| && !HttpUrlAt(content, i)
    ensures Scanned(content, textStart, i + 1)
  {
  }

  lemma {:induction false} GapStep(content: string, parts: seq<TextLink>, textStart: nat, i: nat)
    requires Scanned(content, textStart, i) && textStart < i && Tiled(content, Links(content), parts, textStart)
    ensures Tiled(content, Links(content), parts + [Plain(content[textStart..i])], i)
  {
    GapIsPart(content, textStart, i);
    PushTile(content, Links(content), parts, textStart, Plain(content[textStart..i]), i);
  }

  /** Pending text holds no link. */
  lemma {:induction false} GapIsPart(content: string, textStart: nat, i: nat)
    requires Scanned(content, textStart, i) && textStart < i
    ensures PartAt(content, Links(content), textStart, Plain(content[textStart..i]))
    ensures NoLinkAfter(Links(content), textStart, i)
  {
    forall p | textStart <= p < i
      ensures p !in Links(content)
    {
      assert !HttpUrlAt(content, p);
    }
  }

  /** The scan stops exactly at token starts. */
  lemma {:induction false} StartsToken(content: string, textStart: nat, i: nat)
    requires Scanned(content, textStart, i) && i < |content| && HttpUrlAt(content, i)
    ensures TokenStart(content, i)
  {
    SchemeIsLong(content[i..]);
    assert content[i..][0] == content[i];
    forall q | 0 <= q < i && HttpUrlAt(content, q)
      ensures exists k :: q <= k < i && IsWhitespace(content[k])
    {
      assert q < textStart;
      assert IsWhitespace(content[textStart]) && textStart < i;
    }
  }

  /** What starts with a scheme starts with a letter and has a slash at index 6 or 7. */
  lemma {:induction false} SchemeIsLong(s: string)
    requires HasScheme(s)
    ensures |s| >= 7 && !IsWhitespace(s[0])
    ensures s[6] == '/'
  {
    if StartsWithIgnoringCase(s, "http://") {
      var head := s[..7];
      assert Lower(head)[0] == 'h' && Lower(head)[6] == '/';
      assert LowerChar(s[0]) == 'h' && LowerChar(s[6]) == '/';
    } else {
      var head := s[..8];
      assert Lower(head)[0] == 'h' && Lower(head)[6] == '/';
      assert LowerChar(s[0]) == 'h' && LowerChar(s[6]) == '/';
    }
  }

  lemma {:induction false} SchemeHasNoSpace(s: string)
    requires HasScheme(s)
    ensures |s| >= 7 && forall k :: 0 <= k < 7 ==> !IsWhitespace(s[k])
  {
    SchemeIsLong(s);
    var n := if StartsWithIgnoringCase(s, "http://") then 7 else 8;
    var head := s[..n];
    assert Lower(head) == (if n == 7 then "http://" else "https://");
    forall k | 0 <= k < 7
      ensures !IsWhitespace(s[k])
    {
      assert LowerChar(s[k]) == Lower(head)[k];
      assert LowerChar(s[k]) in "htps:/";
    }
  }

  lemma {:induction false} PunctuationStops(token: string, k: nat)
    requires k < |token| && !IsTrailing(token[k])
    ensures |TrimPunctuation(token)| > k
  {
    if IsTrailing(token[|token| - 1]) {
      PunctuationStops(token[..|token| - 1], k);
    }
  }

  /** A token keeps at least its scheme, is linked untrimmed, and holds no other token start. */
  lemma {:induction false} TokenFacts(content: string, i: nat)
    requires i < |content| && TokenStart(content, i)
    ensures TokenEnd(content, i) > i
    ensures UrlAt(content, i) != "" && UrlAt(content, i) <= content[i..TokenEnd(content, i)]
    ensures HttpHref(UrlAt(content, i)).Some? ==> HttpHref(UrlAt(content, i)).value == UrlAt(content, i)
    ensures forall p :: i < p < TokenEnd(content, i) ==> !LinkAt(content, p)
  {
    var end := TokenEnd(content, i);
    SchemeIsLong(content[i..]);
    SchemeHasNoSpace(content[i..]);
    assert forall k :: 0 <= k < 7 ==> content[i..][k] == content[i + k];
    assert end >= i + 7;
    var token := content[i..end];
    assert token[6] == '/';
    PunctuationStops(token, 6);
    var url := UrlAt(content, i);
    assert forall k :: 0 <= k < |url| ==> url[k] == content[i + k];
    TrimTrims(url);
    HrefExactly(url, url);
  }

  /** The span that a token gives rise to, before its trailing punctuation. */
  function UrlPart(content: string, p: nat): TextLink
    requires p < |content|
  {
    match HttpHref(UrlAt(content, p))
    case Some(href) => Href(href)
    case None => Plain(UrlAt(content, p))
  }

  function Trailing(content: string, p: nat): string
    requires p < |content|
  {
    content[p..TokenEnd(content, p)][|UrlAt(content, p)|..]
  }

  lemma {:induction false} UrlIsPart(content: string, p: nat)
    requires p < |content| && TokenStart(content, p)
    ensures p < TokenEnd(content, p) == p + |UrlAt(content, p)| + |Trailing(content, p)|
    ensures PartAt(content, Links(content), p, UrlPart(content, p)) && UrlPart(content, p).text == UrlAt(content, p)
    ensures NoLinkAfter(Links(content), p, TokenEnd(content, p))
  {
    TokenFacts(content, p);
    var end, url := TokenEnd(content, p), UrlAt(content, p);
    assert url == content[p..end][..|url|] == content[p..p + |url|];
  }

  lemma {:induction false} TrailingIsPart(content: string, links: map<nat, string>, p: nat, q: nat, end: nat)
    requires p < q < end <= |content| && NoLinkAfter(links, p, end)
    ensures PartAt(content, links, q, Plain(content[p..end][q - p..]))
  {
    assert content[p..end][q - p..] == content[q..end];
  }

  lemma {:induction false} TrailingFollows(content: string, p: nat, q: nat)
    requires p < |content| && TokenStart(content, p) && Trailing(content, p) != "" && q == p + |UrlAt(content, p)|
    ensures PartAt(content, Links(content), q, Plain(Trailing(content, p)))
    ensures q + |Trailing(content, p)| == TokenEnd(content, p)
  {
    UrlIsPart(content, p);
    TrailingIsPart(content, Links(content), p, q, TokenEnd(content, p));
    assert q - p == |UrlAt(content, p)|;
  }

  /** One token: its URL, then its punctuation if there is any. */
  lemma {:induction false} TokenStep(content: string, parts: seq<TextLink>, p: nat)
    requires p < |content| && TokenStart(content, p) && Tiled(content, Links(content), parts, p)
    ensures Trailing(content, p) == "" ==> Tiled(content, Links(content), parts + [UrlPart(content, p)], TokenEnd(content, p))
    ensures Trailing(content, p) != "" ==>
      Tiled(content, Links(content), parts + [UrlPart(content, p)] + [Plain(Trailing(content, p))], TokenEnd(content, p))
  {
    UrlIsPart(content, p);
    var links, first, end := Links(content), UrlPart(content, p), TokenEnd(content, p);
    if Trailing(content, p) == "" {
      PushTile(content, links, parts, p, first, end);
    } else {
      var q := p + |UrlAt(content, p)|;
      TrailingFollows(content, p, q);
      PushTwo(content, links, parts, p, first, q, Plain(Trailing(content, p)), end);
    }
  }

  // -------------------------------------------------------------- What that means

  /** A link is made exactly where a URL token starts whose text, less trailing punctuation, has no
      control character and no backslash. */
  lemma {:induction false} LinksExactly(content: string, p: nat)
    requires p < |content|
    ensures LinkAt(content, p) <==>
      TokenStart(content, p) && forall k :: 0 <= k < |UrlAt(content, p)| ==>
        !IsControl(UrlAt(content, p)[k]) && UrlAt(content, p)[k] != '\\'
  {
    if TokenStart(content, p) {
      TokenFacts(content, p);
      var url := UrlAt(content, p);
      UrlKeepsScheme(content, p);
      assert forall k :: 0 <= k < |url| ==> url[k] == content[p + k] && !IsWhitespace(url[k]);
      TrimTrims(url);
      HrefExactly(url, url);
    }
  }

  lemma {:induction false} UrlKeepsScheme(content: string, p: nat)
    requires p < |content| && TokenStart(content, p)
    ensures HasScheme(UrlAt(content, p))
  {
    var s, end := content[p..], TokenEnd(content, p);
    var url, token := UrlAt(content, p), content[p..end];
    SchemeIsLong(s);
    SchemeHasNoSpace(s);
    if StartsWithIgnoringCase(s, "http://") {
      KeepsPrefix(content, p, 7);
      assert url[..7] == s[..7];
    } else {
      var head := s[..8];
      assert Lower(head)[7] == '/' && LowerChar(s[7]) == '/';
      KeepsPrefix(content, p, 8);
      assert url[..8] == s[..8];
    }
  }

  /** Up to a slash nothing is cut off. */
  lemma {:induction false} KeepsPrefix(content: string, p: nat, n: nat)
    requires p < |content| && 7 <= n <= 8 && p + n <= |content|
    requires forall k :: p <= k < p + 7 ==> !IsWhitespace(content[k])
    requires content[p + n - 1] == '/'
    ensures |UrlAt(content, p)| >= n
  {
    var end := TokenEnd(content, p);
    assert !IsWhitespace('/');
    assert end >= p + n;
    PunctuationStops(content[p..end], n - 1);
  }

  // ------------------------------------------------------------ From the characters

  /** "http://" or "https://", in capitals or not. */
  predicate SpellsScheme(s: string) {
    && |s| >= 7 && s[0] in "hH" && s[1] in "tT" && s[2] in "tT" && s[3] in "pP"
    && (|| (s[4] == ':' && s[5] == '/' && s[6] == '/')
        || (|s| >= 8 && s[4] in "sS" && s[5] == ':' && s[6] == '/' && s[7] == '/'))
  }

  lemma {:induction false} LowerIs(c: char, small: char, capital: char)
    requires 'a' <= small <= 'z' && capital as int == small as int - 32
    ensures LowerChar(c) == small <==> c == small || c == capital
  {
  }

  lemma {:induction false} LowerIsItself(c: char, mark: char)
    requires mark == ':' || mark == '/'
    ensures LowerChar(c) == mark <==> c == mark
  {
  }

  lemma {:induction false} HttpLetters(s: string)
    requires |s| >= 4
    ensures Lower(s)[0] == 'h' <==> s[0] in "hH"
    ensures Lower(s)[1] == 't' <==> s[1] in "tT"
    ensures Lower(s)[2] == 't' <==> s[2] in "tT"
    ensures Lower(s)[3] == 'p' <==> s[3] in "pP"
  {
    LowerIs(s[0], 'h', 'H');
    LowerIs(s[1], 't', 'T');
    LowerIs(s[2], 't', 'T');
    LowerIs(s[3], 'p', 'P');
  }

  lemma {:induction false} PlainScheme(s: string)
    requires |s| == 7
    ensures Lower(s) == "http://" <==>
      s[0] in "hH" && s[1] in "tT" && s[2] in "tT" && s[3] in "pP" && s[4] == ':' && s[5] == '/' && s[6] == '/'
  {
    HttpLetters(s);
    LowerIsItself(s[4], ':');
    LowerIsItself(s[5], '/');
    LowerIsItself(s[6], '/');
    var lower := Lower(s);
    assert lower == [lower[0], lower[1], lower[2], lower[3], lower[4], lower[5], lower[6]];
  }

  lemma {:induction false} SecureScheme(s: string)
    requires |s| == 8
    ensures Lower(s) == "https://" <==>
      s[0] in "hH" && s[1] in "tT" && s[2] in "tT" && s[3] in "pP" && s[4] in "sS" && s[5] == ':' && s[6] == '/' && s[7] == '/'
  {
    HttpLetters(s);
    LowerIs(s[4], 's', 'S');
    LowerIsItself(s[5], ':');
    LowerIsItself(s[6], '/');
    LowerIsItself(s[7], '/');
    var lower := Lower(s);
    assert lower == [lower[0], lower[1], lower[2], lower[3], lower[4], lower[5], lower[6], lower[7]];
  }

  lemma {:induction false} SchemeExactly(s: string)
    ensures HasScheme(s) <==> SpellsScheme(s)
  {
    if |s| >= 7 {
      PlainScheme(s[..7]);
    }
    if |s| >= 8 {
      SecureScheme(s[..8]);
    }
  }

  /** A scheme that does not go on from a letter or a digit. */
  predicate StartsUrl(content: string, p: nat)
    requires p < |content|
  {
    && SpellsScheme(content[p..])
    && !(p > 0 && ('a' <= content[p - 1] <= 'z' || 'A' <= content[p - 1] <= 'Z' || '0' <= content[p - 1] <= '9'))
  }

  /** Everything up to the next space or the end. */
  ghost predicate IsToken(content: string, p: nat, end: int) {
    && p <= end <= |content|
    && (forall k :: p <= k < end ==> !IsWhitespace(content[k]))
    && (end < |content| ==> IsWhitespace(content[end]))
  }

  /** The token less the punctuation at its end. */
  ghost predicate IsUrlOf(token: string, url: string) {
    && url <= token
    && (forall k :: |url| <= k < |token| ==> token[k] in ".,;:!?)]}>'\"")
    && (url != "" ==> url[|url| - 1] !in ".,;:!?)]}>'\"")
  }

  lemma {:induction false} UrlOfExactly(token: string, url: string)
    ensures IsUrlOf(token, url) <==> url == TrimPunctuation(token)
  {
    if token != [] && IsTrailing(token[|token| - 1]) {
      var front := token[..|token| - 1];
      UrlOfExactly(front, url);
      if IsUrlOf(token, url) {
        assert |url| < |token|;
        assert url <= front;
      }
      if IsUrlOf(front, url) {
        assert forall k :: 0 <= k < |front| ==> token[k] == front[k];
      }
    }
  }

  lemma {:induction false} TokenExactly(content: string, p: nat, end: int)
    requires p <= |content|
    ensures IsToken(content, p, end) <==> end == TokenEnd(content, p)
  {
  }

  lemma {:induction false} UrlAtExactly(content: string, p: nat)
    requires p < |content|
    ensures HttpUrlAt(content, p) <==> StartsUrl(content, p)
  {
    SchemeExactly(content[p..]);
  }

  /** What a link is, character by character: a scheme not after a letter or digit, with a space since any
      earlier one, whose token less its last punctuation has no control and no backslash; and that is its
      URL. */
  lemma {:induction false} LinkMeaning(content: string, p: nat, url: string)
    requires p < |content|
    ensures (p in Links(content) && Links(content)[p] == url) <==>
      && StartsUrl(content, p)
      && (forall q :: 0 <= q < p && StartsUrl(content, q) ==> exists k :: q <= k < p && IsWhitespace(content[k]))
      && (exists end :: IsToken(content, p, end) && IsUrlOf(content[p..end], url))
      && (forall k :: 0 <= k < |url| ==> !IsControl(url[k]) && url[k] != '\\')
  {
    LinksExactly(content, p);
    TokenStartExactly(content, p);
    TokenExactly(content, p, TokenEnd(content, p));
    UrlOfExactly(content[p..TokenEnd(content, p)], url);
    forall end | IsToken(content, p, end)
      ensures end == TokenEnd(content, p)
    {
      TokenExactly(content, p, end);
    }
  }

  lemma {:induction false} TokenStartExactly(content: string, p: nat)
    requires p < |content|
    ensures TokenStart(content, p) <==>
      && StartsUrl(content, p)
      && (forall q :: 0 <= q < p && StartsUrl(content, q) ==> exists k :: q <= k < p && IsWhitespace(content[k]))
  {
    forall q | 0 <= q <= p
      ensures HttpUrlAt(content, q) <==> StartsUrl(content, q)
    {
      UrlAtExactly(content, q);
    }
  }
}
