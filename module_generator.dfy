/** Turning the text an AI model answers with into a module
    (src/assets/js/module-generator.js): the JSON is cut out of a fenced
    block, parsed, given an id and a copy of its description, and checked for
    the fields the module page needs. `JSON.parse` is the `parse` argument
    and the generated id is the `id` argument. */
module ModuleGenerator {

  import opened Wrappers
  import opened JsText
  import opened Json

  const JsonFence := "```json"
  const Fence := "```"

  /** The one message every failure is reported with. */
  const ParseError := "Could not parse the AI response. Please try again."

  // ---------------------------------------------------------------------
  // Extraction

  /** The group of `/<opener>\s*([\s\S]*?)\s*```/` on `s`: from the first
      `opener`, up to the first fence after it, without the white space at
      either end; `None` when there is no such pair. */
  function Captured(s: string, opener: string): (r: Option<string>)
    ensures r.Some? ==> r.value == [] || (!IsSpace(r.value[0]) && !IsSpace(r.value[|r.value| - 1]))
  {
    match IndexOf(s, opener, 0)
    case None => None
    case Some(i) =>
      match IndexOf(s, Fence, i + |opener|)
      case None => None
      case Some(q) => Some(Trim(s[i + |opener|..q]))
  }

  /** `jsonMatch[1] || aiResponse`: the capture of a `json` block if there
      is one, else that of a plain block, else the whole text; an empty
      capture falls back to the whole text and does not try the plain
      block. */
  function JsonContent(s: string): string
  {
    match Captured(s, JsonFence)
    case Some(c) => if c != [] then c else s
    case None =>
      match Captured(s, Fence)
      case Some(c) => if c != [] then c else s
      case None => s
  }

  /** `createModuleFromResponse`: parse the content, then finish what the
      parse gave. */
  function CreateModule(response: string, parse: string -> Option<Json>, id: string): Result<Json, string>
  {
    FromParsed(parse(JsonContent(response)), id)
  }

  /** What `createModuleFromResponse` makes of the parse result: an object
      gets the generated `id`, and `originalDescription` set to its
      `description` (absent when that is absent). Setting a property on
      `null` or on a primitive throws in a module, so those are the one
      fixed error, as is a failed parse. An array takes the two properties
      as well, which a JSON value cannot hold, so it is returned as
      parsed. */
  function FromParsed(parsed: Option<Json>, id: string): (r: Result<Json, string>)
    ensures r.Err? <==> parsed.None? || (!parsed.value.JObj? && !parsed.value.JArr?)
    ensures r.Err? ==> r.error == ParseError
    ensures r.Ok? && parsed.value.JArr? ==> r.value == parsed.value
    ensures r.Ok? && parsed.value.JObj? ==>
      && r.value.JObj?
      && Get(r.value, "id") == Some(JStr(id))
      && Get(r.value, "originalDescription") == Get(parsed.value, "description")
      && forall k :: k != "id" && k != "originalDescription" ==> Get(r.value, k) == Get(parsed.value, k)
  {
    match parsed
    case None => Err(ParseError)
    case Some(v) =>
      match v
      case JObj(fields) =>
        var withId := fields["id" := JStr(id)];
        var described :=
          if "description" in withId then withId["originalDescription" := withId["description"]]
          else withId - {"originalDescription"};
        Ok(JObj(described))
      case JArr(_) => Ok(v)
      case _ => Err(ParseError)
  }

  // ---------------------------------------------------------------------
  // Validation

  const RequiredFields := ["title", "type", "difficulty", "description", "instructions", "problems"]

  predicate HasRequiredFields(m: Json)
    requires !m.JNull?
  {
    forall i :: 0 <= i < |RequiredFields| ==> Truthy(Get(m, RequiredFields[i]))
  }

  /** One problem: `None` when it is `null` (reading `.question` throws),
      otherwise whether both `question` and `answer` are truthy. */
  function ProblemCheck(p: Json): Option<bool>
  {
    if p.JNull? then None else Some(Truthy(Get(p, "question")) && Truthy(Get(p, "answer")))
  }

  /** The problem loop from position `from` on: it stops at the first
      problem that throws or fails. */
  function ProblemsVerdict(items: seq<Json>, from: nat): Option<bool>
    decreases |items| - from
  {
    if from >= |items| then Some(true)
    else match ProblemCheck(items[from])
      case None => None
      case Some(false) => Some(false)
      case Some(true) => ProblemsVerdict(items, from + 1)
  }

  /** The `problems` field when it is an array. */
  function Problems(m: Json): Option<seq<Json>>
    requires !m.JNull?
  {
    match Get(m, "problems")
    case Some(JArr(items)) => Some(items)
    case _ => None
  }

  /** What `validateModule(m)` returns; `None` when it throws, as reading
      a field of `null` does. */
  function Verdict(m: Json): Option<bool>
  {
    if m.JNull? then None
    else if !HasRequiredFields(m) then Some(false)
    else match Problems(m)
      case None => Some(false)
      case Some(items) => if |items| == 0 then Some(false) else ProblemsVerdict(items, 0)
  }

  /** `validateModule`, with its two loops and early returns. */
  method ValidateModule(m: Json) returns (ok: Option<bool>)
    ensures ok == Verdict(m)
  {
    if m.JNull? {
      return None;
    }
    var i := 0;
    while i < |RequiredFields|
      invariant 0 <= i <= |RequiredFields|
      invariant forall j :: 0 <= j < i ==> Truthy(Get(m, RequiredFields[j]))
    {
      if !Truthy(Get(m, RequiredFields[i])) {
        return Some(false);
      }
      i := i + 1;
    }
    assert Truthy(Get(m, RequiredFields[5]));
    var problems := Get(m, "problems").value;
    if !problems.JArr? || |problems.items| == 0 {
      return Some(false);
    }
    var k := 0;
    while k < |problems.items|
      invariant 0 <= k <= |problems.items|
      invariant ProblemsVerdict(problems.items, k) == ProblemsVerdict(problems.items, 0)
    {
      var problem := problems.items[k];
      if problem.JNull? {
        return None;
      }
      if !Truthy(Get(problem, "question")) || !Truthy(Get(problem, "answer")) {
        return Some(false);
      }
      k := k + 1;
    }
    return Some(true);
  }

  // ---------------------------------------------------------------------
  // Properties

  /** The problem loop passes exactly when every problem from `from` on is
      an object-like value with a truthy question and answer. */
  lemma {:induction false} ProblemsPass(items: seq<Json>, from: nat)
    ensures ProblemsVerdict(items, from) == Some(true) <==>
      forall j :: from <= j < |items| ==> ProblemCheck(items[j]) == Some(true)
    decreases |items| - from
  {
    if from < |items| {
      ProblemsPass(items, from + 1);
    }
  }

  /** A module is valid exactly when every required field is truthy, the
      problems form a non-empty array and each problem has a truthy
      question and answer. */
  lemma ValidIff(m: Json)
    ensures Verdict(m) == Some(true) <==>
      && !m.JNull?
      && HasRequiredFields(m)
      && Problems(m).Some? && |Problems(m).value| > 0
      && forall j :: 0 <= j < |Problems(m).value| ==>
           var p := Problems(m).value[j];
           !p.JNull? && Truthy(Get(p, "question")) && Truthy(Get(p, "answer"))
  {
    if !m.JNull? && HasRequiredFields(m) && Problems(m).Some? {
      ProblemsPass(Problems(m).value, 0);
    }
  }

  /** A missing or falsy required field makes the module invalid, whatever
      else it holds. */
  lemma MissingFieldInvalid(m: Json, i: nat)
    requires !m.JNull? && i < |RequiredFields| && !Truthy(Get(m, RequiredFields[i]))
    ensures Verdict(m) == Some(false)
  {
  }

  /** The fields creation adds are not among those validation reads, so a
      created module is valid exactly when the parsed object is. */
  lemma CreationKeepsVerdict(parsed: Json, id: string)
    requires FromParsed(Some(parsed), id).Ok?
    ensures var v := FromParsed(Some(parsed), id).value;
      !v.JNull? && Verdict(v) == Verdict(parsed)
  {
    var v := FromParsed(Some(parsed), id).value;
    if parsed.JObj? {
      assert forall i :: 0 <= i < |RequiredFields| ==> RequiredFields[i] != "id" && RequiredFields[i] != "originalDescription";
      assert HasRequiredFields(v) == HasRequiredFields(parsed);
      assert Problems(v) == Problems(parsed);
    }
  }

  /** A text without any fence is parsed whole. */
  lemma NoFenceIsWhole(s: string)
    requires forall j :: 0 <= j < |s| ==> s[j] != '`'
    ensures JsonContent(s) == s
  {
    NoBacktickNoOccurrence(s, JsonFence);
    NoBacktickNoOccurrence(s, Fence);
  }

  lemma NoBacktickNoOccurrence(s: string, pat: string)
    requires forall j :: 0 <= j < |s| ==> s[j] != '`'
    requires |pat| > 0 && pat[0] == '`'
    ensures IndexOf(s, pat, 0).None?
  {
  }

  /** Fencing a trimmed, backtick-free JSON text in a `json` block, after
      backtick-free prose and before anything, gives the text back. */
  lemma {:induction false} FencedJsonRoundTrip(prose: string, body: string, rest: string)
    requires forall j :: 0 <= j < |prose| ==> prose[j] != '`'
    requires forall j :: 0 <= j < |body| ==> body[j] != '`'
    requires body != [] && !IsSpace(body[0]) && !IsSpace(body[|body| - 1])
    ensures JsonContent(prose + JsonFence + "\n" + body + "\n" + Fence + rest) == body
  {
    var inner := "\n" + body + "\n";
    var s := prose + JsonFence + inner + Fence + rest;
    assert s == prose + JsonFence + "\n" + body + "\n" + Fence + rest;
    var start := |prose| + |JsonFence|;
    var q := start + |inner|;
    assert IndexOf(s, JsonFence, 0) == Some(|prose|) && IndexOf(s, Fence, start) == Some(q) && s[start..q] == inner by {
      NoBacktickAround(body);
      FencedLayout(prose, inner, rest);
      FirstOccurrence(s, JsonFence, 0, |prose|);
      FirstOccurrence(s, Fence, start, q);
    }
    assert Trim(inner) == body by {
      TrimAround(body);
    }
  }

  lemma NoBacktickAround(body: string)
    requires forall j :: 0 <= j < |body| ==> body[j] != '`'
    ensures var inner := "\n" + body + "\n"; forall k :: 0 <= k < |inner| ==> inner[k] != '`'
  {
    var inner := "\n" + body + "\n";
    forall k | 0 <= k < |inner|
      ensures inner[k] != '`'
    {
      if 0 < k < |inner| - 1 {
        assert inner[k] == body[k - 1];
      }
    }
  }

  /** Where the parts of `prose ```json inner ``` rest` lie: both fences
      where they were put, and no backtick before either. */
  lemma FencedLayout(prose: string, inner: string, rest: string)
    requires forall j :: 0 <= j < |prose| ==> prose[j] != '`'
    requires forall j :: 0 <= j < |inner| ==> inner[j] != '`'
    ensures var s := prose + JsonFence + inner + Fence + rest;
      var start := |prose| + |JsonFence|;
      && OccursAt(s, JsonFence, |prose|)
      && OccursAt(s, Fence, start + |inner|)
      && s[start..start + |inner|] == inner
      && (forall j :: 0 <= j < |prose| ==> s[j] != '`')
      && (forall j :: start <= j < start + |inner| ==> s[j] != '`')
  {
    var s := prose + JsonFence + inner + Fence + rest;
    var start := |prose| + |JsonFence|;
    var q := start + |inner|;
    assert s[|prose|..start] == JsonFence;
    assert s[q..q + |Fence|] == Fence;
    assert s[start..q] == inner;
    forall j | 0 <= j < |prose|
      ensures s[j] != '`'
    {
      assert s[j] == prose[j];
    }
    forall j | start <= j < q
      ensures s[j] != '`'
    {
      assert s[j] == inner[j - start];
    }
  }

  /** `pat` starts with a backtick and the text from `from` up to position
      `i` has none, so an occurrence at `i` is the first from `from` on. */
  lemma FirstOccurrence(s: string, pat: string, from: nat, i: nat)
    requires |pat| > 0 && pat[0] == '`' && from <= i && OccursAt(s, pat, i)
    requires forall j :: from <= j < i ==> s[j] != '`'
    ensures IndexOf(s, pat, from) == Some(i)
  {
    forall j | from <= j < i
      ensures !OccursAt(s, pat, j)
    {
      assert j + |pat| <= |s| ==> s[j..j + |pat|][0] == s[j];
    }
  }

  /** An occurrence at `i` with none from `from` up to it is what
      `indexOf` finds. */
  lemma OnlyOccurrenceBefore(s: string, pat: string, from: nat, i: nat)
    requires from <= i && OccursAt(s, pat, i)
    requires forall j :: from <= j < i ==> !OccursAt(s, pat, j)
    ensures IndexOf(s, pat, from) == Some(i)
  {
    var r := IndexOf(s, pat, from);
    assert r.Some?;
    assert !(r.value < i) && !(i < r.value);
  }

  /** One line break on each side of a trimmed text is trimmed away. */
  lemma TrimAround(body: string)
    requires body != [] && !IsSpace(body[0]) && !IsSpace(body[|body| - 1])
    ensures Trim("\n" + body + "\n") == body
  {
    var t := "\n" + body + "\n";
    assert t[1..] == body + "\n";
    assert TrimStart(t) == body + "\n";
    var u := body + "\n";
    assert u[..|u| - 1] == body;
    assert IsSpace(u[|u| - 1]);
    assert TrimEnd(body) == body;
  }

  /** An empty `json` block makes the whole response the content; the
      plain-block pattern is not tried. */
  lemma EmptyJsonBlockFallsBack(prose: string, rest: string)
    requires forall j :: 0 <= j < |prose| ==> prose[j] != '`'
    ensures var s := prose + JsonFence + Fence + rest; JsonContent(s) == s
  {
    var s := prose + JsonFence + Fence + rest;
    var i := |prose|;
    assert s[i..i + |JsonFence|] == JsonFence;
    FirstOccurrence(s, JsonFence, 0, i);
    var start := i + |JsonFence|;
    assert s[start..start + 3] == Fence;
    assert IndexOf(s, Fence, start) == Some(start);
    assert s[start..start] == [];
  }

  /** Where the parts of `head opener inner ``` rest` lie: the opener and
      the closing fence where they were put, and every other character
      taken from its part. */
  lemma BlockLayout(head: string, opener: string, inner: string, rest: string)
    ensures var s := head + opener + inner + Fence + rest;
      var start := |head| + |opener|;
      var q := start + |inner|;
      && OccursAt(s, opener, |head|)
      && OccursAt(s, Fence, q)
      && s[start..q] == inner
      && (forall j :: 0 <= j < |head| ==> s[j] == head[j])
      && (forall j :: start <= j < q ==> s[j] == inner[j - start])
      && (forall j :: q + |Fence| <= j < |s| ==> s[j] == rest[j - q - |Fence|])
  {
    var s := head + opener + inner + Fence + rest;
    var start := |head| + |opener|;
    var q := start + |inner|;
    assert s[|head|..start] == opener;
    assert s[q..q + |Fence|] == Fence;
    assert s[start..q] == inner;
  }

  /** Below `lim`, the only backticks are the fences at `a` and `b`, and
      neither is followed by another backtick or a `j`: no `json` fence
      starts below `lim`. */
  lemma NoJsonFenceBelow(s: string, a: nat, b: nat, lim: nat)
    requires forall k :: 0 <= k < lim && k < |s| && s[k] == '`' ==> a <= k < a + 3 || b <= k < b + 3
    requires a + 3 < |s| ==> s[a + 3] != '`' && s[a + 3] != 'j'
    requires b + 3 < |s| ==> s[b + 3] != '`' && s[b + 3] != 'j'
    ensures forall j :: 0 <= j < lim ==> !OccursAt(s, JsonFence, j)
  {
    forall j | 0 <= j < lim
      ensures !OccursAt(s, JsonFence, j)
    {
      if OccursAt(s, JsonFence, j) {
        JsonFenceChars(s, j);
        assert false;
      }
    }
  }

  /** A `json` fence is three backticks and a `j`. */
  lemma JsonFenceChars(s: string, j: nat)
    requires OccursAt(s, JsonFence, j)
    ensures s[j] == '`' && s[j + 1] == '`' && s[j + 2] == '`' && s[j + 3] == 'j'
  {
    var w := s[j..j + |JsonFence|];
    assert w[0] == s[j] && w[1] == s[j + 1] && w[2] == s[j + 2] && w[3] == s[j + 3];
  }

  /** A text around one plain block: its only backticks are the block's
      two fences, a line break follows the first, and the first character
      of `tail` follows the second. */
  lemma PlainBlockChars(prose: string, plain: string, tail: string)
    requires forall j :: 0 <= j < |prose| ==> prose[j] != '`'
    requires forall j :: 0 <= j < |plain| ==> plain[j] != '`'
    requires forall j :: 0 <= j < |tail| ==> tail[j] != '`'
    ensures var s := prose + Fence + "\n" + plain + "\n" + Fence + tail;
      var p := |prose|;
      var q := p + |Fence| + |plain| + 2;
      && q + 3 <= |s| && s[p + 3] == '\n'
      && (q + 3 < |s| ==> s[q + 3] == tail[0])
      && forall k :: 0 <= k < |s| && s[k] == '`' ==> p <= k < p + 3 || q <= k < q + 3
  {
    var first := "\n" + plain + "\n";
    var s := prose + Fence + first + Fence + tail;
    assert s == prose + Fence + "\n" + plain + "\n" + Fence + tail;
    BlockLayout(prose, Fence, first, tail);
    NoBacktickAround(plain);
  }

  /** The plain pattern cuts a trimmed, backtick-free text out of a
      plain block after backtick-free prose. */
  lemma PlainBlockCaptured(prose: string, body: string, rest: string)
    requires forall j :: 0 <= j < |prose| ==> prose[j] != '`'
    requires forall j :: 0 <= j < |body| ==> body[j] != '`'
    requires body != [] && !IsSpace(body[0]) && !IsSpace(body[|body| - 1])
    ensures Captured(prose + Fence + "\n" + body + "\n" + Fence + rest, Fence) == Some(body)
  {
    var inner := "\n" + body + "\n";
    var s := prose + Fence + inner + Fence + rest;
    assert s == prose + Fence + "\n" + body + "\n" + Fence + rest;
    var p := |prose|;
    var start := p + |Fence|;
    var q := start + |inner|;
    assert IndexOf(s, Fence, 0) == Some(p) && IndexOf(s, Fence, start) == Some(q) && s[start..q] == inner by {
      BlockLayout(prose, Fence, inner, rest);
      NoBacktickAround(body);
      FirstOccurrence(s, Fence, 0, p);
      FirstOccurrence(s, Fence, start, q);
    }
    assert Trim(inner) == body by {
      TrimAround(body);
    }
  }

  /** Fencing a trimmed, backtick-free text in a plain block, after
      backtick-free prose and before backtick-free text that does not
      turn the closing fence into a `json` one, gives the text back: no
      `json` block is found, so the plain pattern is tried. */
  lemma FencedPlainRoundTrip(prose: string, body: string, rest: string)
    requires forall j :: 0 <= j < |prose| ==> prose[j] != '`'
    requires forall j :: 0 <= j < |body| ==> body[j] != '`'
    requires forall j :: 0 <= j < |rest| ==> rest[j] != '`'
    requires rest == [] || rest[0] != 'j'
    requires body != [] && !IsSpace(body[0]) && !IsSpace(body[|body| - 1])
    ensures JsonContent(prose + Fence + "\n" + body + "\n" + Fence + rest) == body
  {
    var s := prose + Fence + "\n" + body + "\n" + Fence + rest;
    PlainBlockChars(prose, body, rest);
    NoJsonFenceBelow(s, |prose|, |prose| + |Fence| + |body| + 2, |s|);
    assert Captured(s, JsonFence).None?;
    PlainBlockCaptured(prose, body, rest);
  }

  /** A `json` block after a head in which no `json` fence starts is
      what the content is cut from. */
  lemma JsonBlockAfter(head: string, body: string, rest: string)
    requires forall j :: 0 <= j < |body| ==> body[j] != '`'
    requires body != [] && !IsSpace(body[0]) && !IsSpace(body[|body| - 1])
    requires var s := head + JsonFence + "\n" + body + "\n" + Fence + rest;
      forall j :: 0 <= j < |head| ==> !OccursAt(s, JsonFence, j)
    ensures JsonContent(head + JsonFence + "\n" + body + "\n" + Fence + rest) == body
  {
    var inner := "\n" + body + "\n";
    var s := head + JsonFence + inner + Fence + rest;
    assert s == head + JsonFence + "\n" + body + "\n" + Fence + rest;
    var start := |head| + |JsonFence|;
    var q := start + |inner|;
    assert IndexOf(s, JsonFence, 0) == Some(|head|) && IndexOf(s, Fence, start) == Some(q) && s[start..q] == inner by {
      BlockLayout(head, JsonFence, inner, rest);
      OnlyOccurrenceBefore(s, JsonFence, 0, |head|);
      NoBacktickAround(body);
      FirstOccurrence(s, Fence, start, q);
    }
    assert Trim(inner) == body by {
      TrimAround(body);
    }
  }

  /** A `json` block is taken even when a plain block comes before it. */
  lemma JsonBlockWins(prose: string, plain: string, mid: string, body: string, rest: string)
    requires forall j :: 0 <= j < |prose| ==> prose[j] != '`'
    requires forall j :: 0 <= j < |plain| ==> plain[j] != '`'
    requires forall j :: 0 <= j < |mid| ==> mid[j] != '`'
    requires forall j :: 0 <= j < |body| ==> body[j] != '`'
    requires body != [] && !IsSpace(body[0]) && !IsSpace(body[|body| - 1])
    ensures JsonContent(prose + Fence + "\n" + plain + "\n" + Fence + "\n" + mid
                        + JsonFence + "\n" + body + "\n" + Fence + rest) == body
  {
    var after := "\n" + mid;
    var head := prose + Fence + "\n" + plain + "\n" + Fence + after;
    var s := head + JsonFence + "\n" + body + "\n" + Fence + rest;
    assert s == prose + Fence + "\n" + plain + "\n" + Fence + "\n" + mid
                + JsonFence + "\n" + body + "\n" + Fence + rest;
    var p := |prose|;
    var q1 := p + |Fence| + |plain| + 2;
    assert forall j :: 0 <= j < |after| ==> after[j] != '`' by {
      forall j | 0 < j < |after|
        ensures after[j] != '`'
      {
        assert after[j] == mid[j - 1];
      }
    }
    PlainBlockChars(prose, plain, after);
    assert s[..|head|] == head;
    assert forall k :: 0 <= k < |head| ==> s[k] == head[k];
    NoJsonFenceBelow(s, p, q1, |head|);
    JsonBlockAfter(head, body, rest);
  }
}
