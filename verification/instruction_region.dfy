/**
 The instruction file that a person, a setup and a consumer share, with one
 region between two markers for the consumer. These are the edits of
 crates/harness-runtime/src/instruction_region.rs as written; what they promise
 is proved in the modules that follow.
*/
module InstructionRegion {
  import opened Wrappers
  import opened Text

  const BEGIN := ":::begin-ai-stp"
  const END := ":::end-ai-stp"

  predicate MarkersWellFormed(existing: string) {
    match (Find(existing, BEGIN), Find(existing, END))
    case (None, None) => true
    case (Some(begin), Some(end)) =>
      && begin < end
      && !Contains(existing[begin + |BEGIN|..], BEGIN)
      && !Contains(existing[end + |END|..], END)
    case _ => false
  }

  /** The marked region with both markers and the line break that closes it. */
  function Extract(existing: string): Option<string> {
    match (Find(existing, BEGIN), Find(existing, END))
    case (Some(begin), Some(end)) =>
      if end < begin then None
      else
        var endAt := end + |END|;
        Some(existing[begin..endAt + LineBreak(existing[endAt..])])
    case _ => None
  }

  /** The text with a section in place of its region, or behind it on a line of its own. */
  function Splice(existing: string, section: string): string {
    match Extract(existing)
    case None =>
      if existing == "" then section
      else (if EndsWithNewline(existing) then existing else existing + "\n") + section
    case Some(held) =>
      match Find(existing, BEGIN)
      case None => existing
      case Some(begin) => existing[..begin] + section + existing[begin + |held|..]
  }

  /** The patched text, and whether anything has to be written. */
  function Patch(existing: string, section: string): (string, bool) {
    var desired := match Extract(section) case Some(region) => region case None => section;
    if Extract(existing) == Some(desired) then (existing, false)
    else if existing == "" then (section, true)
    else (Splice(existing, desired), true)
  }

  // ----- the frontmatter -----

  /** Where the body begins after an opening `---` line. */
  function BodyAt(existing: string): Option<nat> {
    if StartsWith(existing, "---\r\n") then Some(5)
    else if StartsWith(existing, "---\n") then Some(4)
    else None
  }

  /** A later line that is exactly `---`, with either line ending. */
  predicate IsFence(existing: string, start: nat) {
    && 0 < start && start + 3 <= |existing| && existing[start - 1] == '\n'
    && At(existing, "---", start) && LineBreak(existing[start + 3..]) > 0
  }

  /** The first fence at or after `from`, tried at every index. */
  function ClosingFence(existing: string, from: nat): (found: Option<nat>)
    ensures found.Some? ==> from <= found.value && IsFence(existing, found.value)
    ensures found.Some? ==> forall i :: from <= i < found.value ==> !IsFence(existing, i)
    ensures found.None? ==> forall i :: from <= i ==> !IsFence(existing, i)
    decreases |existing| - from
  {
    if from + 3 > |existing| then None
    else if IsFence(existing, from) then Some(from)
    else ClosingFence(existing, from + 1)
  }

  /** The end of the fence line at `start`, and of one blank line after it. */
  function FenceEnd(existing: string, start: nat): (end: nat)
    requires start + 3 <= |existing|
    ensures start + 3 <= end <= |existing|
  {
    var end := start + 3 + LineBreak(existing[start + 3..]);
    end + LineBreak(existing[end..])
  }

  /** The frontmatter placed before the markers, or nothing. */
  function OwnedPrefixOf(existing: string): (prefix: string)
    ensures prefix <= existing
  {
    match BodyAt(existing)
    case None => ""
    case Some(bodyAt) =>
      match ClosingFence(existing, bodyAt)
      case None => ""
      case Some(start) =>
        var end := FenceEnd(existing, start);
        var rest := existing[end..];
        if Extract(rest).None? && !Contains(rest, BEGIN) then "" else existing[..end]
  }

  /**
   The scan as written: find the next `---`, and on a miss resume three
   characters later. It finds exactly the first fence line.
  */
  method OwnedPrefix(existing: string) returns (prefix: string)
    ensures prefix == OwnedPrefixOf(existing)
  {
    hide ClosingFence, IsFence, At, Extract, Contains, FindFrom, StartsWith;
    if BodyAt(existing).None? {
      return "";
    }
    BodyInside(existing);
    var search := BodyAt(existing).value;
    ghost var bodyAt := search;
    var end := 0;
    while true
      invariant 0 < bodyAt <= search <= |existing|
      invariant ClosingFence(existing, search) == ClosingFence(existing, bodyAt)
      decreases |existing| - search
    {
      var found := FindFrom(existing, "---", search);
      if found.None? {
        NoFenceWithoutDashes(existing, search);
        return "";
      }
      var start := found.value;
      DashesInside(existing, start);
      SkipToDashes(existing, search, start);
      if existing[start - 1] == '\n' && LineBreak(existing[start + 3..]) > 0 {
        FoundFence(existing, start);
        end := start + 3 + LineBreak(existing[start + 3..]);
        break;
      }
      SkipThree(existing, start);
      search := start + 3;
    }
    end := end + LineBreak(existing[end..]);
    if Extract(existing[end..]).None? && !Contains(existing[end..], BEGIN) {
      return "";
    }
    prefix := existing[..end];
  }

  lemma BodyInside(existing: string)
    requires BodyAt(existing).Some?
    ensures 0 < BodyAt(existing).value <= |existing|
  {
  }

  lemma DashesInside(existing: string, start: nat)
    requires At(existing, "---", start)
    ensures start + 3 <= |existing|
  {
  }

  lemma FoundFence(existing: string, start: nat)
    requires 0 < start && At(existing, "---", start)
    requires existing[start - 1] == '\n' && LineBreak(existing[start + 3..]) > 0
    ensures ClosingFence(existing, start) == Some(start)
  {
  }

  lemma NoFenceWithoutDashes(existing: string, from: nat)
    requires forall i :: from <= i ==> !At(existing, "---", i)
    ensures ClosingFence(existing, from) == None
  {
  }

  /** Indices before the next `---` are no fences. */
  lemma SkipToDashes(existing: string, from: nat, next: nat)
    requires from <= next && next + 3 <= |existing|
    requires forall i :: from <= i < next ==> !At(existing, "---", i)
    ensures ClosingFence(existing, from) == ClosingFence(existing, next)
    decreases next - from
  {
    if from < next {
      assert !At(existing, "---", from);
      SkipToDashes(existing, from + 1, next);
    }
  }

  /** A `---` that is no fence rules out fences at its next two indices as well. */
  lemma SkipThree(existing: string, start: nat)
    requires 0 < start && At(existing, "---", start)
    requires existing[start - 1] != '\n' || LineBreak(existing[start + 3..]) == 0
    ensures ClosingFence(existing, start) == ClosingFence(existing, start + 3)
  {
    assert "---"[0] == '-' && "---"[1] == '-';
    assert existing[start + 0] == '-' && existing[start + 1] == '-';
    NotFence(existing, start);
    NotFence(existing, start + 1);
    NotFence(existing, start + 2);
  }

  lemma NotFence(existing: string, i: nat)
    requires !IsFence(existing, i)
    ensures ClosingFence(existing, i) == ClosingFence(existing, i + 1)
  {
  }

  // ----- detach, replace and withdraw -----

  /** What a detach returns; `Panics` is a slice whose end precedes its start. */
  datatype Detach = Absent | Detached(text: string) | Panics

  function RemoveRegion(existing: string): Detach {
    match (Extract(existing), Find(existing, BEGIN))
    case (Some(region), Some(begin)) =>
      var owned := OwnedPrefixOf(existing);
      if |owned| > begin then Panics
      else Detached(existing[|owned|..begin] + existing[begin + |region|..])
    case _ => Absent
  }

  /** A setup's text with the attachment of the file it replaces. */
  function PreserveInReplacement(existing: string, incoming: string): string {
    match Extract(existing)
    case None => incoming
    case Some(region) =>
      if Extract(incoming).Some? then Patch(incoming, region).0
      else
        var spliced := Splice(incoming, region);
        var owned := OwnedPrefixOf(existing);
        if owned == "" || StartsWith(spliced, "---\n") then spliced else owned + spliced
  }

  /** What a withdrawn file keeps; `None` when it carried no attachment. */
  function KeepRegionOnWithdraw(existing: string): Option<string> {
    match Extract(existing)
    case None => None
    case Some(region) => Some(OwnedPrefixOf(existing) + region)
  }
}
