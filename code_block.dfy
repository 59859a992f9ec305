/**
 * The `code` element rule of the markdown renderer and the copy button of its
 * header (src/components/thread/markdown-text.tsx): the language tag found by
 * `/language-(\w+)/` on the class name, the code text with one trailing
 * newline removed by `/\n$/`, and the `isCopied` gate around the clipboard.
 */
module CodeBlock {
  import opened Wrappers

  const LanguagePrefix: string := "language-"

  /** How long the copied indicator stays on after a successful copy, in milliseconds. */
  const DefaultCopiedDuration: nat := 3000

  /** The regular-expression class `\w`: ASCII letters, digits and underscore. */
  predicate IsWordChar(c: char) {
    'a' <= c <= 'z' || 'A' <= c <= 'Z' || '0' <= c <= '9' || c == '_'
  }

  /** `language-` starts at position `p` of `s` and a word character follows it. */
  predicate MatchesAt(s: string, p: nat) {
    && p + |LanguagePrefix| < |s|
    && s[p..p + |LanguagePrefix|] == LanguagePrefix
    && IsWordChar(s[p + |LanguagePrefix|])
  }

  /**
   * `tag` is what the first capture group of `/language-(\w+)/` holds when the
   * leftmost match starts at `p`: a non-empty run of word characters right
   * after `language-`, as long as possible.
   */
  ghost predicate IsLeftmostTag(s: string, p: nat, tag: string) {
    var start := p + |LanguagePrefix|;
    && MatchesAt(s, p)
    && (forall q: nat :: q < p ==> !MatchesAt(s, q))
    && |tag| > 0
    && start + |tag| <= |s|
    && s[start..start + |tag|] == tag
    && (forall i :: 0 <= i < |tag| ==> IsWordChar(tag[i]))
    && (start + |tag| == |s| || !IsWordChar(s[start + |tag|]))
  }

  /** The greedy `\w+`: the longest prefix of `s` made of word characters. */
  function WordRun(s: string): (r: string)
    ensures r <= s
    ensures forall i :: 0 <= i < |r| ==> IsWordChar(r[i])
    ensures |r| == |s| || !IsWordChar(s[|r|])
  {
    if |s| > 0 && IsWordChar(s[0]) then [s[0]] + WordRun(s[1..]) else []
  }

  /** The leftmost position at or after `from` where the pattern matches. */
  function FindMatch(s: string, from: nat): (r: Option<nat>)
    ensures r.Some? ==> from <= r.value && MatchesAt(s, r.value)
    ensures r.Some? ==> forall q: nat :: from <= q < r.value ==> !MatchesAt(s, q)
    ensures r.None? ==> forall q: nat :: from <= q ==> !MatchesAt(s, q)
    decreases |s| - from
  {
    if from + |LanguagePrefix| >= |s| then None
    else if MatchesAt(s, from) then Some(from)
    else FindMatch(s, from + 1)
  }

  /** `className || ""`: an absent class name is searched as the empty string. */
  function ClassText(className: Option<string>): string {
    className.GetOr("")
  }

  /**
   * `match[1]` of `/language-(\w+)/.exec(className || "")`, or `None` when the
   * pattern does not match.
   */
  function LanguageTag(className: Option<string>): (r: Option<string>)
    ensures r.None? <==> forall p: nat :: !MatchesAt(ClassText(className), p)
    ensures r.Some? ==> exists p: nat :: IsLeftmostTag(ClassText(className), p, r.value)
  {
    var s := ClassText(className);
    match FindMatch(s, 0)
    case None => None
    case Some(p) =>
      var tag := WordRun(s[p + |LanguagePrefix|..]);
      assert IsLeftmostTag(s, p, tag);
      Some(tag)
  }

  /** `.replace(/\n$/, "")`: without the `m` flag `$` is the end of input, so at most the final newline goes. */
  function StripTrailingNewline(s: string): (r: string)
    ensures r <= s && |s| - |r| <= 1
    ensures |r| < |s| <==> |s| > 0 && s[|s| - 1] == '\n'
  {
    if |s| > 0 && s[|s| - 1] == '\n' then s[..|s| - 1] else s
  }

  /** Exactly one newline goes: a text ending in two keeps the first of them. */
  lemma StripRemovesOneNewline(s: string)
    ensures StripTrailingNewline(s + "\n") == s
    ensures StripTrailingNewline(s + "\n\n") == s + "\n"
  {
  }

  /**
   * What the `code` rule renders: a fenced block (a header with the language
   * and a copy button, then the highlighter, both given the same language and
   * code text), or plain inline code with the original class and children.
   */
  datatype CodeView =
    | Fenced(language: string, code: string)
    | Inline(className: Option<string>, children: string)

  /**
   * The `code` rule on `String(children)`.  A fenced block is produced exactly
   * when the class name holds `language-` followed by a word character; its
   * language is the leftmost such tag and its code is the children with their
   * final newline, if any, removed.
   */
  function CodeRule(className: Option<string>, children: string): (r: CodeView)
    ensures r.Fenced? <==> exists p: nat :: MatchesAt(ClassText(className), p)
    ensures r.Fenced? ==> exists p: nat :: IsLeftmostTag(ClassText(className), p, r.language)
    ensures r.Fenced? ==> r.code == StripTrailingNewline(children)
    ensures r.Fenced? ==> children == r.code || children == r.code + "\n"
    ensures r.Inline? ==> r == Inline(className, children)
  {
    match LanguageTag(className)
    case Some(language) =>
      var code := StripTrailingNewline(children);
      assert children == code || children == code + "\n" by {
        if |code| < |children| {
          assert children == children[..|children| - 1] + [children[|children| - 1]];
        }
      }
      Fenced(language, code)
    case None => Inline(className, children)
  }

  /**
   * The copy button of one code header: the `isCopied` flag of
   * `useCopyToClipboard`, the clipboard writes that have been started and not
   * yet settled, and the due times of the timers that will set `isCopied`
   * back to false.  Those timers are never cleared, one per successful write.
   */
  class CopyButton {
    var isCopied: bool
    const copiedDuration: nat
    var writesInFlight: seq<string>
    var revertTimers: seq<nat>

    /** The copied indicator is never on without a timer that will turn it off. */
    ghost predicate Valid()
      reads this
    {
      isCopied ==> |revertTimers| > 0
    }

    /** `CodeHeader` calls the hook without options, so the default duration applies. */
    constructor ()
      ensures Valid()
      ensures !isCopied && copiedDuration == DefaultCopiedDuration
      ensures writesInFlight == [] && revertTimers == []
    {
      isCopied := false;
      copiedDuration := DefaultCopiedDuration;
      writesInFlight := [];
      revertTimers := [];
    }

    /**
     * A click (`onCopy`): nothing happens for empty code or while the copied
     * indicator is on; otherwise a clipboard write of exactly `code` starts.
     */
    method OnCopy(code: string) returns (started: bool)
      requires Valid()
      modifies this
      ensures Valid()
      ensures started <==> |code| > 0 && !old(isCopied)
      ensures writesInFlight == if started then old(writesInFlight) + [code] else old(writesInFlight)
      ensures isCopied == old(isCopied) && revertTimers == old(revertTimers)
    {
      if code == "" || isCopied {
        return false;
      }
      writesInFlight := writesInFlight + [code];
      started := true;
    }

    /** The `i`-th write in flight succeeded at time `now`: the indicator turns on and a revert is scheduled. */
    method WriteSucceeded(i: nat, now: nat)
      requires Valid() && i < |writesInFlight|
      modifies this
      ensures Valid()
      ensures isCopied
      ensures revertTimers == old(revertTimers) + [now + copiedDuration]
      ensures writesInFlight == old(writesInFlight[..i] + writesInFlight[i + 1..])
    {
      writesInFlight := writesInFlight[..i] + writesInFlight[i + 1..];
      isCopied := true;
      revertTimers := revertTimers + [now + copiedDuration];
    }

    /** The `i`-th write in flight failed: the failure is not handled and nothing else changes. */
    method WriteFailed(i: nat)
      requires Valid() && i < |writesInFlight|
      modifies this
      ensures Valid()
      ensures writesInFlight == old(writesInFlight[..i] + writesInFlight[i + 1..])
      ensures isCopied == old(isCopied) && revertTimers == old(revertTimers)
    {
      writesInFlight := writesInFlight[..i] + writesInFlight[i + 1..];
    }

    /** The `i`-th revert timer, due at or before `now`, fires and turns the indicator off. */
    method RevertFires(i: nat, now: nat)
      requires Valid() && i < |revertTimers| && revertTimers[i] <= now
      modifies this
      ensures Valid()
      ensures !isCopied
      ensures revertTimers == old(revertTimers[..i] + revertTimers[i + 1..])
      ensures writesInFlight == old(writesInFlight)
    {
      revertTimers := revertTimers[..i] + revertTimers[i + 1..];
      isCopied := false;
    }
  }

  /** Two quick clicks start two writes; once one succeeds, further clicks do nothing until the revert. */
  method CopyScenario() {
    var b := new CopyButton();
    var started := b.OnCopy("");
    assert !started;
    started := b.OnCopy("x");
    assert started;
    started := b.OnCopy("x");
    assert started && b.writesInFlight == ["x", "x"];
    b.WriteSucceeded(0, 500);
    started := b.OnCopy("x");
    assert !started && b.revertTimers == [3500];
    b.RevertFires(0, 3500);
    started := b.OnCopy("x");
    assert started;
  }
}
