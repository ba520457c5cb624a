/**
 Which paths a bundle may name: the checks of crates/provider-v3/src/bundle.rs,
 over Unicode texts. Lowercasing is a parameter.
*/
module BundlePaths {
  import opened Wrappers
  import opened Segments

  datatype Reason =
    | UnsupportedBundleFormat | AdaptationBindingMissing | AdaptationBindingMismatch | ProjectionProfileMismatch
    | UnsupportedProtocolVersion | PathDuplicate | PathNotRelative | PathEscapesTarget | LimitExceeded
    | LinkNotAllowed | SpecialFileNotAllowed | UnsupportedNativeSurface | DigestMismatch

  /** Bytes of one character in UTF-8. */
  function Width(c: char): (n: nat)
    ensures 1 <= n <= 4
  {
    var code := c as int;
    if code < 0x80 then 1 else if code < 0x800 then 2 else if code < 0x1_0000 then 3 else 4
  }

  function Bytes(text: string): nat
    decreases |text|
  {
    if text == "" then 0 else Width(text[0]) + Bytes(text[1..])
  }

  predicate IsControl(c: char) {
    var code := c as int;
    code < 0x20 || 0x7F <= code < 0xA0
  }

  const RESERVED_STEMS: seq<string> := [
    "con", "prn", "aux", "nul", "com1", "com2", "com3", "com4", "com5", "com6", "com7", "com8",
    "com9", "com\U{B9}", "com\U{B2}", "com\U{B3}", "lpt1", "lpt2", "lpt3", "lpt4", "lpt5", "lpt6", "lpt7", "lpt8",
    "lpt9", "lpt\U{B9}", "lpt\U{B2}", "lpt\U{B3}"]

  const RESERVED_IN_A_NAME: set<char> := {'<', '>', '"', '|', '?', '*'}

  const SECRET_NAMES: seq<string> := [".env", ".netrc", ".npmrc", "credentials", "id_rsa", "id_ed25519", ".pgpass"]
  const SECRET_PREFIXES: seq<string> := [".env."]
  const SECRET_SUFFIXES: seq<string> := [".pem", ".key", ".p12", ".pfx", ".keystore"]

  predicate EndsWith(text: string, suffix: string) {
    |suffix| <= |text| && text[|text| - |suffix|..] == suffix
  }

  predicate NamesADevice(segment: string, fold: string -> string) {
    fold(Split(segment, {'.'})[0]) in RESERVED_STEMS
  }

  function CheckSegment(segment: string, fold: string -> string): Option<Reason> {
    if segment == "" || segment == "." then Some(PathNotRelative)
    else if segment == ".." then Some(PathEscapesTarget)
    else if Bytes(segment) > 255 then Some(LimitExceeded)
    else if NamesADevice(segment, fold) then Some(PathNotRelative)
    else if exists c :: c in segment && c in RESERVED_IN_A_NAME then Some(PathNotRelative)
    else if ':' in segment then Some(PathNotRelative)
    else if segment[|segment| - 1] == ' ' || segment[|segment| - 1] == '.' then Some(PathNotRelative)
    else None
  }

  /** The first segment that is refused decides. */
  function CheckSegments(segments: seq<string>, fold: string -> string): Option<Reason>
    decreases |segments|
  {
    if segments == [] then None
    else if CheckSegment(segments[0], fold).Some? then CheckSegment(segments[0], fold)
    else CheckSegments(segments[1..], fold)
  }

  predicate CredentialName(name: string) {
    || name in SECRET_NAMES
    || (exists p :: p in SECRET_PREFIXES && p <= name)
    || (exists s :: s in SECRET_SUFFIXES && EndsWith(name, s))
  }

  predicate DriveLetter(path: string) {
    |path| > 1 && Width(path[0]) == 1 && path[1] == ':'
  }

  function Last(pieces: seq<string>): string
    requires |pieces| > 0
  {
    pieces[|pieces| - 1]
  }

  /** Why a path is refused, if it is. */
  function CheckPath(path: string, fold: string -> string): Option<Reason> {
    if path == "" then Some(PathNotRelative)
    else if Bytes(path) > 1024 then Some(LimitExceeded)
    else if path[0] == '/' || path[0] == '~' || path[0] == '\\' then Some(PathNotRelative)
    else if DriveLetter(path) then Some(PathNotRelative)
    else if CheckSegments(Split(path, {'/'}), fold).Some? then CheckSegments(Split(path, {'/'}), fold)
    else if exists c :: c in path && IsControl(c) then Some(PathNotRelative)
    else if '\\' in path then Some(PathNotRelative)
    else if CredentialName(Last(Split(path, {'/'}))) then Some(SpecialFileNotAllowed)
    else None
  }

  // ----- lengths, device names and credential names -----

  /** How many characters of a text have at least this code. */
  function From(text: string, code: int): nat
    decreases |text|
  {
    if text == "" then 0 else (if text[0] as int >= code then 1 else 0) + From(text[1..], code)
  }

  /** A character is one byte, and one more from each of the three codes on at which UTF-8 grows. */
  lemma {:induction false} BytesGrow(text: string)
    ensures Bytes(text) == |text| + From(text, 0x80) + From(text, 0x800) + From(text, 0x1_0000)
    decreases |text|
  {
    if text != "" {
      BytesGrow(text[1..]);
    }
  }

  /** A reserved stem, alone or with a dot and anything behind it. */
  ghost predicate Device(segment: string, fold: string -> string) {
    exists head :: '.' !in head && fold(head) in RESERVED_STEMS && (segment == head || head + "." <= segment)
  }

  /** The first piece of a text, before any separator. */
  lemma FirstPiece(text: string, sep: char, head: string)
    ensures Split(text, {sep})[0] == head <==> sep !in head && (text == head || head + [sep] <= text)
  {
    hide Split;
    var pieces := Split(text, {sep});
    PiecesHaveNoSeparator(text, {sep});
    JoinSplit(text, sep);
    assert pieces[0] in pieces;
    if sep !in head {
      SplitUnbroken(head, sep);
      if head + [sep] <= text {
        var tail := text[|head| + 1..];
        assert text == head + [sep] + tail;
        SplitAppend(head, sep, tail);
      }
    }
  }

  lemma DeviceIff(segment: string, fold: string -> string)
    ensures NamesADevice(segment, fold) <==> Device(segment, fold)
  {
    hide Split;
    FirstPiece(segment, '.', Split(segment, {'.'})[0]);
    forall head | '.' !in head && (segment == head || head + "." <= segment)
      ensures Split(segment, {'.'})[0] == head
    {
      FirstPiece(segment, '.', head);
    }
  }

  /** No extension makes a device name acceptable, wherever in a path it stands. */
  lemma DeviceWithTail(head: string, tail: string, path: string, fold: string -> string)
    requires '.' !in head && NamesADevice(head, fold) && head + "." + tail in Split(path, {'/'})
    ensures CheckSegment(head + "." + tail, fold).Some? && CheckPath(path, fold).Some?
  {
    hide Split, CheckPath;
    FirstPiece(head, '.', head);
    FirstPiece(head + "." + tail, '.', head);
    assert NamesADevice(head + "." + tail, fold);
    SegmentIff(head + "." + tail, fold);
    CheckPathIff(path, fold);
    DeviceIff(head + "." + tail, fold);
  }

  /** A name that tools keep secrets under. */
  ghost predicate Credential(name: string) {
    || name in SECRET_NAMES
    || (exists p, rest :: p in SECRET_PREFIXES && name == p + rest)
    || (exists head, s :: s in SECRET_SUFFIXES && name == head + s)
  }

  lemma CredentialIff(name: string)
    ensures CredentialName(name) <==> Credential(name)
  {
    forall p | p in SECRET_PREFIXES
      ensures p <= name <==> exists rest :: name == p + rest
    {
      if p <= name {
        assert name == p + name[|p|..];
      }
    }
    forall s | s in SECRET_SUFFIXES
      ensures EndsWith(name, s) <==> exists head :: name == head + s
    {
      if EndsWith(name, s) {
        assert name == name[..|name| - |s|] + s;
      }
      if head :| name == head + s {
        assert (head + s)[|head|..] == s;
      }
    }
  }

  // ----- acceptance without the order of checks -----

  /** A character every system lets a name carry: no control, no separator, nothing reserved. */
  predicate Portable(c: char) {
    && c >= ' ' && !('\U{7F}' <= c <= '\U{9F}')
    && c !in {'\\', ':', '<', '>', '"', '|', '?', '*'}
  }

  /** A name that is the same name on every system. */
  ghost predicate PlainName(segment: string, fold: string -> string) {
    && segment != "" && segment[|segment| - 1] != ' ' && segment[|segment| - 1] != '.'
    && Bytes(segment) <= 255 && !Device(segment, fold)
  }

  ghost predicate Admissible(path: string, fold: string -> string) {
    Sound(path, fold) && !Credential(Last(Split(path, {'/'})))
  }

  /** Admissible but for the name of the file. */
  ghost predicate Sound(path: string, fold: string -> string) {
    && Bytes(path) <= 1024 && !("~" <= path)
    && (forall c :: c in path ==> Portable(c))
    && (forall s :: s in Split(path, {'/'}) ==> PlainName(s, fold))
  }

  ghost predicate SegmentPasses(segment: string, fold: string -> string) {
    PlainName(segment, fold) && forall c :: c in segment ==> c !in {':', '<', '>', '"', '|', '?', '*'}
  }

  lemma SegmentIff(segment: string, fold: string -> string)
    ensures CheckSegment(segment, fold) == None <==> SegmentPasses(segment, fold)
  {
    hide NamesADevice, Device, Bytes;
    DeviceIff(segment, fold);
  }

  lemma {:induction false} SegmentsIff(segments: seq<string>, fold: string -> string)
    ensures CheckSegments(segments, fold) == None <==> forall s :: s in segments ==> SegmentPasses(s, fold)
    decreases |segments|
  {
    hide CheckSegment, SegmentPasses;
    if segments != [] {
      SegmentIff(segments[0], fold);
      SegmentsIff(segments[1..], fold);
      assert forall s :: s in segments <==> s == segments[0] || s in segments[1..];
    }
  }

  /** Segments that pass carry only characters a name may carry, and so does the path. */
  lemma SegmentsPassIff(path: string, fold: string -> string)
    ensures (forall s :: s in Split(path, {'/'}) ==> SegmentPasses(s, fold))
       <==> && (forall s :: s in Split(path, {'/'}) ==> PlainName(s, fold))
            && (forall c :: c in path ==> c !in {':', '<', '>', '"', '|', '?', '*'})
  {
    hide Split, PlainName;
    PiecesHaveNoSeparator(path, {'/'});
    if forall s :: s in Split(path, {'/'}) ==> SegmentPasses(s, fold) {
      forall c | c in path
        ensures c !in {':', '<', '>', '"', '|', '?', '*'}
      {
        if c != '/' {
          PiecesCover(path, {'/'}, c);
          var p :| p in Split(path, {'/'}) && c in p;
        }
      }
    }
  }

  /** An empty or rooted path has an empty first segment. */
  lemma EmptyFirst(path: string)
    requires path == "" || path[0] == '/'
    ensures "" in Split(path, {'/'})
  {
    assert Split(path, {'/'})[0] == "";
  }

  /** What `check_path` accepts, as one statement about characters and names. */
  lemma CheckPathIff(path: string, fold: string -> string)
    ensures CheckPath(path, fold) == None <==> Admissible(path, fold)
    ensures CheckPath(path, fold) == Some(SpecialFileNotAllowed)
       <==> Sound(path, fold) && Credential(Last(Split(path, {'/'})))
  {
    hide Split, PlainName, SegmentPasses, CheckSegments, CredentialName, Credential, Bytes;
    SegmentsIff(Split(path, {'/'}), fold);
    SegmentsReason(Split(path, {'/'}), fold);
    SegmentsPassIff(path, fold);
    CredentialIff(Last(Split(path, {'/'})));
    if path == "" || path[0] == '/' {
      EmptyFirst(path);
      NoEmptyName(fold);
    }
    if DriveLetter(path) {
      assert path[1] in path;
    }
    if path != "" {
      assert path[0] in path;
      assert "~" <= path <==> path[0] == '~';
    }
  }

  lemma NoEmptyName(fold: string -> string)
    ensures !PlainName("", fold)
  {
  }

  // ----- the reason of a refusal -----

  /** The first segment that is refused. */
  ghost predicate FirstRefused(segments: seq<string>, i: nat, fold: string -> string) {
    i < |segments| && !SegmentPasses(segments[i], fold) && forall j :: 0 <= j < i ==> SegmentPasses(segments[j], fold)
  }

  /** The first segment refused climbs. */
  ghost predicate ClimbsFirst(segments: seq<string>, fold: string -> string) {
    exists i: nat :: FirstRefused(segments, i, fold) && segments[i] == ".."
  }

  /** The first segment refused is too long. */
  ghost predicate TooLongFirst(segments: seq<string>, fold: string -> string) {
    exists i: nat :: FirstRefused(segments, i, fold) && Bytes(segments[i]) > 255
  }

  lemma SegmentReason(segment: string, fold: string -> string)
    ensures CheckSegment(segment, fold) == Some(PathEscapesTarget) <==> segment == ".."
    ensures CheckSegment(segment, fold) == Some(LimitExceeded) <==> Bytes(segment) > 255
    ensures CheckSegment(segment, fold) in
              {None, Some(PathNotRelative), Some(PathEscapesTarget), Some(LimitExceeded)}
  {
    assert Bytes("") == 0 && Bytes(".") == 1 && Bytes("..") == 2;
    hide NamesADevice, Bytes;
  }

  lemma {:induction false} SegmentsReason(segments: seq<string>, fold: string -> string)
    ensures CheckSegments(segments, fold) == Some(PathEscapesTarget) <==> ClimbsFirst(segments, fold)
    ensures CheckSegments(segments, fold) == Some(LimitExceeded) <==> TooLongFirst(segments, fold)
    ensures CheckSegments(segments, fold) in
              {None, Some(PathNotRelative), Some(PathEscapesTarget), Some(LimitExceeded)}
    decreases |segments|
  {
    hide CheckSegment, SegmentPasses, Bytes;
    if segments != [] {
      SegmentIff(segments[0], fold);
      SegmentReason(segments[0], fold);
      SegmentsReason(segments[1..], fold);
      if SegmentPasses(segments[0], fold) {
        FirstMoves(segments, fold);
      } else {
        assert FirstRefused(segments, 0, fold);
        assert forall i: nat :: FirstRefused(segments, i, fold) ==> i == 0;
      }
    }
  }

  lemma FirstMoves(segments: seq<string>, fold: string -> string)
    requires segments != [] && SegmentPasses(segments[0], fold)
    ensures ClimbsFirst(segments, fold) <==> ClimbsFirst(segments[1..], fold)
    ensures TooLongFirst(segments, fold) <==> TooLongFirst(segments[1..], fold)
  {
    hide SegmentPasses, Bytes;
    forall i: nat
      ensures FirstRefused(segments[1..], i, fold) <==> FirstRefused(segments, i + 1, fold)
    {
      if FirstRefused(segments[1..], i, fold) {
        forall j | 0 <= j < i + 1
          ensures SegmentPasses(segments[j], fold)
        {
          assert j > 0 ==> segments[j] == segments[1..][j - 1];
        }
      }
      if FirstRefused(segments, i + 1, fold) {
        forall j | 0 <= j < i
          ensures SegmentPasses(segments[1..][j], fold)
        {
          assert segments[1..][j] == segments[j + 1];
        }
      }
    }
    if i: nat :| FirstRefused(segments, i, fold) && segments[i] == ".." {
      assert FirstRefused(segments[1..], i - 1, fold) && segments[1..][i - 1] == segments[i];
    }
    if i: nat :| FirstRefused(segments, i, fold) && Bytes(segments[i]) > 255 {
      assert FirstRefused(segments[1..], i - 1, fold) && segments[1..][i - 1] == segments[i];
    }
    forall i: nat | FirstRefused(segments[1..], i, fold)
      ensures FirstRefused(segments, i + 1, fold) && segments[1..][i] == segments[i + 1]
    {
    }
  }

  /** A path whose segments are looked at: neither empty, too long, rooted nor on a drive. */
  predicate Opens(path: string) {
    && path != "" && Bytes(path) <= 1024 && path[0] !in {'/', '~', '\\'}
    && !(|path| > 1 && path[0] < '\U{80}' && path[1] == ':')
  }

  /** Why a path is refused, whatever the order of the checks. */
  lemma ReasonIff(path: string, fold: string -> string)
    ensures CheckPath(path, fold) == Some(LimitExceeded)
       <==> Bytes(path) > 1024 || (Opens(path) && TooLongFirst(Split(path, {'/'}), fold))
    ensures CheckPath(path, fold) == Some(PathEscapesTarget)
       <==> Opens(path) && ClimbsFirst(Split(path, {'/'}), fold)
    ensures CheckPath(path, fold) == Some(SpecialFileNotAllowed)
       <==> Sound(path, fold) && Credential(Last(Split(path, {'/'})))
    ensures CheckPath(path, fold) in
              {None, Some(PathNotRelative), Some(LimitExceeded), Some(PathEscapesTarget), Some(SpecialFileNotAllowed)}
  {
    CheckPathIff(path, fold);
    SegmentsReason(Split(path, {'/'}), fold);
    assert Bytes("") == 0;
    hide Split, CheckSegments, CredentialName, Credential, Bytes, Sound, ClimbsFirst, TooLongFirst;
  }
}
