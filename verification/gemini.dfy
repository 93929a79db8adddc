/**
  The pure parts of the AI service wrapper: splitting a data URL into its
  mime type and payload, stripping markdown code fences from a model reply,
  the quality and aspect-ratio mappings, the text instruction chosen for a
  thumbnail request, and what each call answers when the reply is empty,
  unparsable or the call throws. The calls themselves are parameters: what
  the awaited call resolved to (the reply's `text`, possibly absent) or the
  message it threw, and the JSON parser as a partial function.
 */
module Gemini {
  import opened Wrappers
  import opened Text
  import opened Types
  import Lists

  // ---------------------------------------------------------------- data URLs

  const DataPrefix: string := "data:"
  const Marker: string := ";base64,"
  const FallbackMime: string := "image/jpeg"

  datatype InlineImage = InlineImage(mimeType: string, data: string)

  /** The regex `.` (no `s` flag) matches every character but these. */
  predicate NoLineTerminator(s: string) {
    forall i :: 0 <= i < |s| ==> !IsLineTerminator(s[i])
  }

  /** The text after `data:` can be cut at `p`: a non-empty first capture, a
      `;base64,` at `p`, and a non-empty second capture up to the end. */
  predicate ValidCut(rest: string, p: int) {
    1 <= p && p + |Marker| < |rest| && OccursAt(rest, Marker, p)
  }

  /** `^data:(.+);base64,(.+)$` matches `s`. */
  predicate RegexMatches(s: string) {
    && IsPrefix(DataPrefix, s)
    && NoLineTerminator(s)
    && exists p | 0 <= p < |s| :: ValidCut(s[|DataPrefix|..], p)
  }

  /** The greatest cut at or below `q`. */
  function LastCutFrom(rest: string, q: int): (r: Option<int>)
    ensures r.Some? ==> ValidCut(rest, r.value) && r.value <= q
    ensures r.Some? ==> forall p :: r.value < p <= q ==> !ValidCut(rest, p)
    ensures r.None? ==> forall p :: p <= q ==> !ValidCut(rest, p)
    decreases q
  {
    if q < 1 then None
    else if ValidCut(rest, q) then Some(q)
    else LastCutFrom(rest, q - 1)
  }

  /** The cut a greedy first capture settles on: the last one that leaves a
      non-empty second capture. */
  function LastCut(rest: string): (r: Option<int>)
    ensures r.None? <==> forall p :: !ValidCut(rest, p)
    ensures r.Some? ==> ValidCut(rest, r.value) && forall p :: ValidCut(rest, p) ==> p <= r.value
  {
    LastCutFrom(rest, |rest|)
  }

  /** `cleanBase64(dataUrl)`: on a match, the two captures; otherwise the
      input unchanged as JPEG data. */
  function CleanBase64(s: string): (r: InlineImage)
    ensures RegexMatches(s) ==>
      && s == DataPrefix + r.mimeType + Marker + r.data
      && r.mimeType != [] && r.data != []
      && forall p :: ValidCut(s[|DataPrefix|..], p) ==> p <= |r.mimeType|
    ensures !RegexMatches(s) ==> r == InlineImage(FallbackMime, s)
  {
    if IsPrefix(DataPrefix, s) && NoLineTerminator(s) then
      var rest := s[|DataPrefix|..];
      match LastCut(rest)
      case Some(p) =>
        assert rest[p..p + |Marker|] == Marker;
        assert s == DataPrefix + rest[..p] + Marker + rest[p + |Marker|..] by {
          assert s == s[..|DataPrefix|] + rest;
          assert rest == rest[..p] + rest[p..p + |Marker|] + rest[p + |Marker|..];
        }
        InlineImage(rest[..p], rest[p + |Marker|..])
      case None => InlineImage(FallbackMime, s)
    else
      InlineImage(FallbackMime, s)
  }

  lemma NoLineTerminatorConcat(a: string, b: string)
    requires NoLineTerminator(a) && NoLineTerminator(b)
    ensures NoLineTerminator(a + b)
  {
    forall i | 0 <= i < |a + b| ensures !IsLineTerminator((a + b)[i]) {
      if i >= |a| {
        assert (a + b)[i] == b[i - |a|];
      }
    }
  }

  /** After `data:`, a payload without `;` leaves exactly one place to cut:
      right after the mime type. */
  lemma OnlyCut(m: string, d: string)
    requires m != [] && d != [] && ';' !in d
    ensures LastCut(m + Marker + d) == Some(|m|)
  {
    var rest := m + Marker + d;
    assert rest[|m|..|m| + |Marker|] == Marker;
    assert ValidCut(rest, |m|);
    forall p | |m| < p < |rest| ensures rest[p] != ';' {
      if p < |m| + |Marker| {
        assert rest[p] == Marker[p - |m|];
      } else {
        assert rest[p] == d[p - |m| - |Marker|];
      }
    }
    forall p | |m| < p ensures !ValidCut(rest, p) {
      if p < |rest| {
        assert rest[p] != Marker[0];
      }
    }
  }

  /** A text of the matching shape is split at the last cut. */
  lemma CleanBase64AtCut(s: string, p: int)
    requires IsPrefix(DataPrefix, s) && NoLineTerminator(s)
    requires LastCut(s[|DataPrefix|..]) == Some(p)
    ensures CleanBase64(s) == InlineImage(s[|DataPrefix|..][..p], s[|DataPrefix|..][p + |Marker|..])
  {
  }

  /** A data URL whose payload has no `;` splits back into its mime type and
      payload, whatever the mime type contains. */
  lemma CleanDataUrl(m: string, d: string)
    requires m != [] && d != []
    requires NoLineTerminator(m) && NoLineTerminator(d) && ';' !in d
    ensures CleanBase64(DataPrefix + m + Marker + d) == InlineImage(m, d)
  {
    var s := DataPrefix + m + Marker + d;
    var rest := m + Marker + d;
    assert NoLineTerminator(DataPrefix) && NoLineTerminator(Marker);
    NoLineTerminatorConcat(DataPrefix, m);
    NoLineTerminatorConcat(DataPrefix + m, Marker);
    NoLineTerminatorConcat(DataPrefix + m + Marker, d);
    assert s == DataPrefix + rest;
    assert s[..|DataPrefix|] == DataPrefix;
    assert s[|DataPrefix|..] == rest;
    OnlyCut(m, d);
    CleanBase64AtCut(s, |m|);
    assert rest[..|m|] == m;
    assert rest[|m| + |Marker|..] == d;
  }

  /** The greedy first capture runs to the last `;base64,`. */
  lemma GreedyMimeType()
    ensures CleanBase64("data:a;base64,b;base64,c") == InlineImage("a;base64,b", "c")
  {
    assert "data:a;base64,b;base64,c" == DataPrefix + "a;base64,b" + Marker + "c";
    assert NoLineTerminator("a;base64,b") && NoLineTerminator("c");
    CleanDataUrl("a;base64,b", "c");
  }

  /** Raw base64 without the `data:` prefix is passed through as JPEG data. */
  lemma RawBase64FallsBack(s: string)
    requires !IsPrefix(DataPrefix, s)
    ensures CleanBase64(s) == InlineImage(FallbackMime, s)
  {
  }

  /** A line break anywhere defeats the match, since `.` does not cross it. */
  lemma LineBreakFallsBack(s: string, i: int)
    requires 0 <= i < |s| && IsLineTerminator(s[i])
    ensures CleanBase64(s) == InlineImage(FallbackMime, s)
  {
  }

  predicate IsBase64Char(c: char) {
    || 'A' <= c <= 'Z' || 'a' <= c <= 'z' || '0' <= c <= '9'
    || c == '+' || c == '/' || c == '='
  }

  /** The data URL the thumbnail call builds from the first inline image. */
  function ImageDataUrl(data: string): (url: string)
    ensures IsPrefix(DataPrefix + "image/png" + Marker, url)
  {
    DataPrefix + "image/png" + Marker + data
  }

  /** A generated thumbnail fed back in (for a video, an audit or metadata)
      splits into `image/png` and the payload it was built from. */
  lemma GeneratedImageRoundTrip(data: string)
    requires data != [] && forall i :: 0 <= i < |data| ==> IsBase64Char(data[i])
    ensures CleanBase64(ImageDataUrl(data)) == InlineImage("image/png", data)
  {
    assert ';' !in data by {
      forall i | 0 <= i < |data| ensures data[i] != ';' {
        assert IsBase64Char(data[i]);
      }
    }
    assert NoLineTerminator("image/png");
    CleanDataUrl("image/png", data);
  }

  /** The first part that carries inline data, as a data URL; with none, the
      call throws. `parts` is the first candidate's part list; a reply with
      no `candidates` field, or with no part list, reaches the model as no
      parts. */
  function FirstImage(parts: seq<Option<string>>): (r: Outcome<string>)
    ensures r.Threw? <==> forall i :: 0 <= i < |parts| ==> parts[i].None?
    ensures r.Threw? ==> r.message == "No image generated."
    ensures r.Returned? ==> exists i :: (
      && 0 <= i < |parts| && parts[i].Some? && r.value == ImageDataUrl(parts[i].value)
      && forall j :: 0 <= j < i ==> parts[j].None?)
  {
    if parts == [] then Threw("No image generated.")
    else if parts[0].Some? then Returned(ImageDataUrl(parts[0].value))
    else
      var r := FirstImage(parts[1..]);
      assert r.Returned? ==> exists i :: (
        && 0 <= i < |parts| && parts[i].Some? && r.value == ImageDataUrl(parts[i].value)
        && forall j :: 0 <= j < i ==> parts[j].None?) by {
        if r.Returned? {
          var i :| 0 <= i < |parts[1..]| && parts[1..][i].Some? && r.value == ImageDataUrl(parts[1..][i].value)
            && forall j :: 0 <= j < i ==> parts[1..][j].None?;
          assert forall j :: 0 <= j < i + 1 ==> parts[j].None? by {
            forall j | 0 <= j < i + 1 ensures parts[j].None? {
              if j > 0 {
                assert parts[j] == parts[1..][j - 1];
              }
            }
          }
          assert parts[i + 1] == parts[1..][i];
        }
      }
      assert r.Threw? <==> forall i :: 0 <= i < |parts| ==> parts[i].None? by {
        assert forall i :: 0 < i < |parts| ==> parts[i] == parts[1..][i - 1];
      }
      r
  }

  // ---------------------------------------------------------------- replies

  /** A Markdown code fence. */
  const Fence: string := "```"

  /** Three backticks start at index `i`. */
  predicate FenceAt(s: string, i: int) {
    0 <= i && i + 2 < |s| && s[i] == '`' && s[i + 1] == '`' && s[i + 2] == '`'
  }

  predicate NoFence(s: string) {
    forall i :: 0 <= i < |s| ==> !FenceAt(s, i)
  }

  lemma FencePrefix(s: string)
    ensures IsPrefix(Fence, s) <==> FenceAt(s, 0)
  {
    if |s| >= 3 {
      assert s[..3] == [s[0], s[1], s[2]];
    }
  }

  /** A text that does not open with two backticks keeps not doing so once
      its fences are removed. */
  lemma {:induction false} RemoveFenceKeepsHead(t: string)
    requires !(|t| >= 2 && t[0] == '`' && t[1] == '`')
    ensures var r := RemoveAll(t, Fence); !(|r| >= 2 && r[0] == '`' && r[1] == '`')
  {
    FencePrefix(t);
    if t != [] && !IsPrefix(Fence, t) {
      var rest := RemoveAll(t[1..], Fence);
      assert RemoveAll(t, Fence) == [t[0]] + rest;
      if t[0] == '`' && t[1..] != [] && t[1..][0] != '`' {
        FencePrefix(t[1..]);
        assert rest == [] || rest[0] == t[1..][0];
      }
    }
  }

  /** After `replace(/```/g, '')` no fence is left, not even one formed by
      the text on either side of a removed fence. */
  lemma {:induction false} RemoveFenceLeavesNone(s: string)
    ensures NoFence(RemoveAll(s, Fence))
    decreases |s|
  {
    FencePrefix(s);
    if s == [] {
    } else if IsPrefix(Fence, s) {
      RemoveFenceLeavesNone(s[3..]);
    } else {
      var x := RemoveAll(s[1..], Fence);
      var r := RemoveAll(s, Fence);
      RemoveFenceLeavesNone(s[1..]);
      assert r == [s[0]] + x;
      if s[0] == '`' {
        RemoveFenceKeepsHead(s[1..]);
      }
      forall i | 0 <= i < |r| ensures !FenceAt(r, i) {
        if i > 0 {
          assert !FenceAt(x, i - 1);
        }
      }
    }
  }

  /** A stretch of fence-free text is fence-free. */
  lemma NoFenceSlice(s: string, a: nat, b: nat)
    requires NoFence(s) && a <= b <= |s|
    ensures NoFence(s[a..b])
  {
    forall i | 0 <= i < b - a ensures !FenceAt(s[a..b], i) {
      assert !FenceAt(s, a + i);
    }
  }

  /** Trimming a fence-free text cannot make a fence. */
  lemma NoFenceTrim(s: string)
    requires NoFence(s)
    ensures NoFence(Trim(s))
  {
    var lo := TrimSlice(s);
    NoFenceSlice(s, lo, lo + |Trim(s)|);
  }

  lemma NoFenceNotContains(s: string)
    requires NoFence(s)
    ensures !Contains(s, Fence)
  {
    forall i | 0 <= i <= |s| - 3 ensures !OccursAt(s, Fence, i) {
      assert !FenceAt(s, i);
      var w := s[i..i + 3];
      assert w[0] == s[i] && w[1] == s[i + 1] && w[2] == s[i + 2];
    }
  }

  /** `text.replace(/```json/g, '').replace(/```/g, '').trim()`: no fence
      survives, and what is left is characters of `text` in their order. */
  function StripFences(text: string): (r: string)
    ensures |r| <= |text|
    ensures r == [] || (!IsWhitespace(r[0]) && !IsWhitespace(r[|r| - 1]))
    ensures !Contains(r, Fence)
    ensures Lists.IsSubsequence(r, text)
  {
    var a := RemoveAll(text, "```json");
    var b := RemoveAll(a, Fence);
    RemoveFenceLeavesNone(a);
    NoFenceTrim(b);
    NoFenceNotContains(Trim(b));
    RemoveAllSubsequence(text, "```json");
    RemoveAllSubsequence(a, Fence);
    TrimSubsequence(b);
    Lists.SubsequenceTrans(b, a, text);
    Lists.SubsequenceTrans(Trim(b), b, text);
    Trim(b)
  }

  /** A reply without backticks is only trimmed. */
  lemma BacktickFreeIsTrim(text: string)
    requires '`' !in text
    ensures StripFences(text) == Trim(text)
  {
    RemoveAllAbsent(text, "```json");
    RemoveAllAbsent(text, "```");
  }

  /** A closing fence followed by text that does not start with `json` is
      not taken for an opening one. */
  lemma ClosingFenceKept(c: string)
    requires '`' !in c && !IsPrefix("json", c)
    ensures RemoveAll("```" + c, "```json") == "```" + c
  {
    var t1 := "``" + c;
    var t2 := "`" + c;
    assert ("```" + c)[1..] == t1 && t1[1..] == t2 && t2[1..] == c;
    assert !IsPrefix("```json", t1) by {
      if |t1| >= 7 { assert t1[2] == c[0]; }
    }
    assert !IsPrefix("```json", t2) by {
      if |t2| >= 7 { assert t2[1] == c[0]; }
    }
    assert !IsPrefix("```json", "```" + c) by {
      if |c| >= 4 {
        assert ("```" + c)[3..7] == c[..4];
        assert c[..4] != "json";
      }
    }
    RemoveAllAbsent(c, "```json");
    assert RemoveAll(t2, "```json") == t2;
    assert RemoveAll(t1, "```json") == t1;
  }

  /** One fenced block inside backtick-free text: both fence markers go, and
      everything else — the text before, the payload, the text after — is
      kept, then trimmed. The text after must not start with `json`, or the
      closing marker and it would read as another opening one. */
  lemma FencedBlockKeepsRest(a: string, b: string, c: string)
    requires '`' !in a && '`' !in b && '`' !in c
    requires !IsPrefix("json", c)
    ensures StripFences(a + "```json" + b + "```" + c) == Trim(a + b + c)
  {
    var tail := "```" + c;
    var text := a + ("```json" + (b + tail));
    assert a + "```json" + b + "```" + c == text;
    RemoveAllConcatAbsent(a, "```json" + (b + tail), "```json");
    RemoveAllLeading("```json", b + tail);
    RemoveAllConcatAbsent(b, tail, "```json");
    ClosingFenceKept(c);
    var once := a + (b + tail);
    assert RemoveAll(text, "```json") == once;
    assert once == (a + b) + tail;
    RemoveAllConcatAbsent(a + b, tail, "```");
    RemoveAllLeading("```", c);
    RemoveAllAbsent(c, "```");
    assert RemoveAll(once, "```") == a + b + c;
  }

  /** A payload wrapped in a ```json fence, with whitespace around it inside
      the fence, comes out as the payload. */
  lemma FencedPayload(w1: string, core: string, w2: string)
    requires AllWhitespace(w1) && AllWhitespace(w2)
    requires core != [] && !IsWhitespace(core[0]) && !IsWhitespace(core[|core| - 1])
    requires '`' !in w1 && '`' !in core && '`' !in w2
    ensures StripFences("```json" + w1 + core + w2 + "```") == core
  {
    var inner := w1 + core + w2;
    assert '`' !in inner;
    var fenced := "```json" + w1 + core + w2 + "```";
    assert fenced == "```json" + (inner + "```");
    RemoveAllLeading("```json", inner + "```");
    RemoveAllConcatAbsent(inner, "```", "```json");
    assert RemoveAll("```", "```json") == "```" by {
      assert !IsPrefix("```json", "```");
      assert !IsPrefix("```json", "``");
      assert !IsPrefix("```json", "`");
    }
    RemoveAllConcatAbsent(inner, "```", "```");
    assert RemoveAll("```", "```") == [] by {
      assert IsPrefix("```", "```");
    }
    assert inner + [] == w1 + core + w2;
    TrimPadded(w1, core, w2);
  }

  /** The fenced array reply the service is meant to accept. */
  lemma FencedArrayExample()
    ensures StripFences("```json\n[\"TEXT\", \"HERE\"]\n```") == "[\"TEXT\", \"HERE\"]"
  {
    var core := "[\"TEXT\", \"HERE\"]";
    assert "```json\n[\"TEXT\", \"HERE\"]\n```" == "```json" + "\n" + core + "\n" + "```";
    assert AllWhitespace("\n");
    FencedPayload("\n", core, "\n");
  }

  /** A reply that is already clean JSON is left alone. */
  lemma CleanReplyUnchanged(text: string)
    requires '`' !in text
    requires text == [] || (!IsWhitespace(text[0]) && !IsWhitespace(text[|text| - 1]))
    ensures StripFences(text) == text
  {
    RemoveAllAbsent(text, "```json");
    RemoveAllAbsent(text, "```");
    TrimOfTrimmed(text);
  }

  /** `response.text || fallback`: an absent or empty reply becomes `fallback`. */
  function ReplyText(reply: Option<string>, fallback: string): (t: string)
    ensures reply.Some? && reply.value != [] ==> t == reply.value
    ensures reply.None? || reply.value == [] ==> t == fallback
  {
    if reply.Some? && reply.value != [] then reply.value else fallback
  }

  /** The JSON-reply calls: the reply text (or `fallback` when empty) is
      stripped of fences and parsed; a throw or a parse failure inside the
      `try` becomes `failure`. */
  function ParseReply<T>(outcome: Outcome<Option<string>>, fallback: string,
                         parse: string -> Option<T>, failure: string): (r: Outcome<T>)
    ensures r.Returned? <==> outcome.Returned? && parse(StripFences(ReplyText(outcome.value, fallback))).Some?
    ensures r.Returned? ==> Some(r.value) == parse(StripFences(ReplyText(outcome.value, fallback)))
    ensures r.Threw? ==> r.message == failure
  {
    match outcome
    case Threw(_) => Threw(failure)
    case Returned(reply) =>
      match parse(StripFences(ReplyText(reply, fallback)))
      case Some(v) => Returned(v)
      case None => Threw(failure)
  }

  /** `detectTextInImage`: the parsed reply when it parses, and every failure
      swallowed into no text. */
  function DetectText(outcome: Outcome<Option<string>>, parse: string -> Option<seq<string>>): (r: seq<string>)
    ensures outcome.Threw? ==> r == []
    ensures outcome.Returned? && parse(StripFences(ReplyText(outcome.value, "[]"))).Some? ==>
      r == parse(StripFences(ReplyText(outcome.value, "[]"))).value
    ensures outcome.Returned? && parse(StripFences(ReplyText(outcome.value, "[]"))).None? ==> r == []
    ensures r != [] ==> outcome.Returned? && parse(StripFences(ReplyText(outcome.value, "[]"))) == Some(r)
  {
    match ParseReply(outcome, "[]", parse, "")
    case Returned(v) => v
    case Threw(_) => []
  }

  /** An empty reply is read as the empty array. */
  lemma EmptyReplyDetectsNothing(parse: string -> Option<seq<string>>)
    requires parse("[]") == Some([])
    ensures DetectText(Returned(None), parse) == []
    ensures DetectText(Returned(Some("")), parse) == []
  {
    var empty := "[]";
    assert empty[0] == '[' && empty[1] == ']';
    assert '`' !in empty;
    CleanReplyUnchanged(empty);
    assert ReplyText(None, empty) == empty;
    assert ReplyText(Some(""), empty) == empty;
  }

  /** An unparsable reply also detects nothing. */
  lemma UnparsableReplyDetectsNothing(reply: Option<string>, parse: string -> Option<seq<string>>)
    requires parse(StripFences(ReplyText(reply, "[]"))).None?
    ensures DetectText(Returned(reply), parse) == []
  {
  }

  /** A fenced array reply is parsed from inside the fence. */
  lemma FencedReplyDetected(w1: string, core: string, w2: string, parse: string -> Option<seq<string>>)
    requires AllWhitespace(w1) && AllWhitespace(w2)
    requires core != [] && !IsWhitespace(core[0]) && !IsWhitespace(core[|core| - 1])
    requires '`' !in w1 && '`' !in core && '`' !in w2
    requires parse(core).Some?
    ensures DetectText(Returned(Some("```json" + w1 + core + w2 + "```")), parse) == parse(core).value
  {
    FencedPayload(w1, core, w2);
  }

  /** `analyzeThumbnail` and `generateYoutubeMetadata` past the call. */
  function AnalyzeThumbnail(outcome: Outcome<Option<string>>, parse: string -> Option<AnalysisResult>): (r: Outcome<AnalysisResult>)
    ensures r.Returned? <==> outcome.Returned? && parse(StripFences(ReplyText(outcome.value, "{}"))).Some?
    ensures r.Returned? ==> Some(r.value) == parse(StripFences(ReplyText(outcome.value, "{}")))
    ensures r.Threw? ==> r.message == "Failed to analyze thumbnail."
  {
    ParseReply(outcome, "{}", parse, "Failed to analyze thumbnail.")
  }

  function GenerateMetadata(outcome: Outcome<Option<string>>, parse: string -> Option<MetadataResult>): (r: Outcome<MetadataResult>)
    ensures r.Returned? <==> outcome.Returned? && parse(StripFences(ReplyText(outcome.value, "{}"))).Some?
    ensures r.Returned? ==> Some(r.value) == parse(StripFences(ReplyText(outcome.value, "{}")))
    ensures r.Threw? ==> r.message == "Failed to generate metadata."
  {
    ParseReply(outcome, "{}", parse, "Failed to generate metadata.")
  }

  /** `enhancePrompt(originalPrompt)` past the call: the trimmed reply when
      it is not blank, otherwise (or on a throw) the original prompt. */
  function EnhancePrompt(original: string, outcome: Outcome<Option<string>>): (r: string)
    ensures outcome.Threw? || outcome.value.None? ==> r == original
    ensures outcome.Returned? && outcome.value.Some? ==>
      r == (if Trim(outcome.value.value) != [] then Trim(outcome.value.value) else original)
  {
    match outcome
    case Threw(_) => original
    case Returned(None) => original
    case Returned(Some(text)) => if Trim(text) != [] then Trim(text) else original
  }

  /** The generator only asks to enhance a prompt that is not blank, and the
      answer is never blank either; when it comes from the model it is
      already trimmed. */
  lemma EnhanceNeverBlank(original: string, outcome: Outcome<Option<string>>)
    requires Trim(original) != []
    ensures Trim(EnhancePrompt(original, outcome)) != []
    ensures EnhancePrompt(original, outcome) != original ==> Trim(EnhancePrompt(original, outcome)) == EnhancePrompt(original, outcome)
  {
    if outcome.Returned? && outcome.value.Some? {
      TrimIdempotent(outcome.value.value);
    }
  }

  // ---------------------------------------------------------------- mappings

  /** `imageSizeMap[request.quality || 'standard']`. */
  function ImageSize(q: Option<Quality>): (size: string)
    ensures size == "1K" <==> q == None || q == Some(Standard)
    ensures size == "2K" <==> q == Some(High)
    ensures size == "4K" <==> q == Some(Ultra)
  {
    match q.GetOr(Standard)
    case Standard => "1K"
    case High => "2K"
    case Ultra => "4K"
  }

  /** The video's aspect ratio: portrait only for exactly `9:16`. */
  function VideoAspect(source: string): (ratio: string)
    ensures ratio == "9:16" <==> source == "9:16"
    ensures ratio == "9:16" || ratio == "16:9"
  {
    if source == "9:16" then "9:16" else "16:9"
  }

  /** The mapping is a projection: a video of a video keeps its ratio, and
      every ratio but portrait becomes landscape. */
  lemma VideoAspectProjection(source: string)
    ensures VideoAspect(VideoAspect(source)) == VideoAspect(source)
    ensures source != "9:16" ==> VideoAspect(source) == VideoAspect("16:9")
  {
  }

  /** `x || fallback` on a string. */
  function OrElse(s: string, fallback: string): (r: string)
    ensures r == s || r == fallback
    ensures r == [] <==> s == [] && fallback == []
    ensures s != [] ==> r == s
  {
    if s != [] then s else fallback
  }

  const DefaultOverride: string := "Perfectly match the style and energy of the original thumbnail."
  const DefaultVideoPrompt: string := "Cinematic movement, high quality, 4k"
  const DefaultThumbnailAspect: string := "16:9"

  /** The thumbnail prompt's override line, the video prompt and the
      requested aspect ratio are never empty. */
  lemma RequestDefaultsNonEmpty(prompt: string, aspect: string)
    ensures OrElse(prompt, DefaultOverride) != []
    ensures OrElse(prompt, DefaultVideoPrompt) != []
    ensures OrElse(aspect, DefaultThumbnailAspect) != []
  {
  }

  // ---------------------------------------------------------------- text instruction

  /** Which text instruction a thumbnail request gets. */
  datatype TextInstruction = Replacement(newText: string, style: Option<TextStyle>) | Preservation

  function SelectTextInstruction(textReplacement: Option<string>, textStyle: Option<TextStyle>): (i: TextInstruction)
    ensures i.Replacement? <==> textReplacement.Some? && textReplacement.value != []
    ensures i.Replacement? ==> i.newText == textReplacement.value && i.style == textStyle
  {
    if textReplacement.Some? && textReplacement.value != [] then Replacement(textReplacement.value, textStyle)
    else Preservation
  }

  const ReplacementHeading: string := "CRITICAL - TEXT REPLACEMENT:"
  const PreservationHeading: string := "CRITICAL - TEXT PRESERVATION:"
  const ReplacementLead: string :=
    "\n- You MUST detect any text present in \"Image 1\" (Inspiration).\n- You MUST REPLACE that text with the new text: \""
  const ReplacementTail: string :=
    "\n- Maintain the perspective and placement of the original text unless the style dictates otherwise."
    + "\n- Do NOT include the original text anywhere. Only the new text should be visible."
  const PreservationBody: string :=
    "\n- You MUST PRESERVE the text from \"Image 1\" exactly as it appears.\n- Do NOT change the words."
    + "\n- Reconstruct the text exactly with the same font, style, and placement."

  /** `textStyleInstruction`: one line each for font, colour and effect. */
  function StyleLines(style: Option<TextStyle>): (lines: string)
    ensures style.None? <==> lines == []
  {
    match style
    case None => []
    case Some(st) =>
      "\n- Font Style: " + st.font + "\n- Text Color: " + st.color + "\n- Text Effect: " + st.effect
  }

  /** The instruction's text, without the template's indentation. */
  function RenderTextInstruction(i: TextInstruction): (text: string)
    ensures IsPrefix(ReplacementHeading, text) <==> i.Replacement?
    ensures IsPrefix(PreservationHeading, text) <==> i.Preservation?
  {
    match i
    case Replacement(t, style) =>
      var text := ReplacementHeading + (ReplacementLead + t + "\".\n" + StyleLines(style) + ReplacementTail);
      assert text[..|ReplacementHeading|] == ReplacementHeading;
      assert text[16] == 'R' != PreservationHeading[16];
      text
    case Preservation =>
      var text := PreservationHeading + PreservationBody;
      assert text[..|PreservationHeading|] == PreservationHeading;
      assert text[16] == 'P' != ReplacementHeading[16];
      text
  }

  /** The style lines name the font, the colour and the effect. */
  lemma StyleLinesCarryStyle(st: TextStyle)
    ensures var lines := StyleLines(Some(st));
      Contains(lines, st.font) && Contains(lines, st.color) && Contains(lines, st.effect)
  {
    var lines := StyleLines(Some(st));
    assert lines == "\n- Font Style: " + st.font + ("\n- Text Color: " + st.color + "\n- Text Effect: " + st.effect);
    ContainsMiddle("\n- Font Style: ", st.font, "\n- Text Color: " + st.color + "\n- Text Effect: " + st.effect);
    assert lines == "\n- Font Style: " + st.font + "\n- Text Color: " + st.color + ("\n- Text Effect: " + st.effect);
    ContainsMiddle("\n- Font Style: " + st.font + "\n- Text Color: ", st.color, "\n- Text Effect: " + st.effect);
    assert lines == "\n- Font Style: " + st.font + "\n- Text Color: " + st.color + "\n- Text Effect: " + st.effect + [];
    ContainsMiddle("\n- Font Style: " + st.font + "\n- Text Color: " + st.color + "\n- Text Effect: ", st.effect, []);
  }

  /** Regrouping the pieces of a replacement instruction. */
  lemma Regroup(h: string, l: string, t: string, q: string, lines: string, tail: string)
    ensures h + (l + t + q + lines + tail) == (h + l) + t + (q + lines + tail)
    ensures h + (l + t + q + lines + tail) == (h + l + t + q) + lines + tail
  {
  }

  /** A non-empty replacement puts the new text in the prompt, and a style
      adds its font, colour and effect. */
  lemma ReplacementCarriesTextAndStyle(textReplacement: Option<string>, textStyle: Option<TextStyle>)
    requires textReplacement.Some? && textReplacement.value != []
    ensures var text := RenderTextInstruction(SelectTextInstruction(textReplacement, textStyle));
      && IsPrefix(ReplacementHeading, text)
      && Contains(text, textReplacement.value)
      && (textStyle.Some? ==>
        Contains(text, textStyle.value.font) && Contains(text, textStyle.value.color) && Contains(text, textStyle.value.effect))
  {
    var t := textReplacement.value;
    var lines := StyleLines(textStyle);
    var q := "\".\n";
    var text := RenderTextInstruction(Replacement(t, textStyle));
    assert text == ReplacementHeading + (ReplacementLead + t + q + lines + ReplacementTail);
    Regroup(ReplacementHeading, ReplacementLead, t, q, lines, ReplacementTail);
    var lead := ReplacementHeading + ReplacementLead;
    ContainsMiddle(lead, t, q + lines + ReplacementTail);
    if textStyle.Some? {
      var st := textStyle.value;
      StyleLinesCarryStyle(st);
      ContainsWithin(lead + t + q, lines, ReplacementTail, st.font);
      ContainsWithin(lead + t + q, lines, ReplacementTail, st.color);
      ContainsWithin(lead + t + q, lines, ReplacementTail, st.effect);
    }
  }

  /** Without a replacement text the instruction is the fixed preservation
      text, whatever style was chosen. */
  lemma NoReplacementPreserves(textReplacement: Option<string>, textStyle: Option<TextStyle>)
    requires textReplacement.None? || textReplacement.value == []
    ensures RenderTextInstruction(SelectTextInstruction(textReplacement, textStyle)) == PreservationHeading + PreservationBody
  {
  }
}
