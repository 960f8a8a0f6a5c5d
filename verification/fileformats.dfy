/**
 * Choice of the file format a print job is written in: the machine's
 * preference list (a ';'-separated metadata entry), with UFP put first for
 * firmware 4.4 and later, looked up in the formats the application can write.
 */
module FileFormats {
  import opened Base
  import opened Diff

  /** A format the application can write. */
  datatype FileFormat = FileFormat(mimeType: string, extension: string, textMode: bool)

  /**
   * How the choice ends: a format, or one of the ways it fails. `NoGlobalStack`
   * is the early `None` return; `UnknownMime` is the `KeyError` of a preferred
   * type the application cannot write; `NoFormats` is the write-request error
   * raised for an empty preference list.
   */
  datatype FormatOutcome = Chosen(format: FileFormat) | NoGlobalStack | UnknownMime(mime: string) | NoFormats

  const UfpMime := "application/x-ufp"
  const FormatSeparator := ';'

  function MimeOf(f: FileFormat): string { f.mimeType }

  /** Python's `str.split(sep)`: the pieces between separators, at least one. */
  function Split(s: string, sep: char): (parts: seq<string>)
    ensures |parts| >= 1
    ensures forall i :: 0 <= i < |parts| ==> sep !in parts[i]
  {
    if |s| == 0 then [""]
    else if s[0] == sep then [""] + Split(s[1..], sep)
    else
      var rest := Split(s[1..], sep);
      [[s[0]] + rest[0]] + rest[1..]
  }

  /** Python's `sep.join(parts)`. */
  function Join(parts: seq<string>, sep: char): string
    requires |parts| >= 1
  {
    if |parts| == 1 then parts[0] else parts[0] + [sep] + Join(parts[1..], sep)
  }

  /** Splitting then joining with the same separator gives the entry back. */
  lemma {:induction false} SplitJoin(s: string, sep: char)
    ensures Join(Split(s, sep), sep) == s
  {
    if |s| > 0 {
      SplitJoin(s[1..], sep);
      var rest := Split(s[1..], sep);
      if s[0] == sep {
        assert Split(s, sep)[1..] == rest;
        assert s == [sep] + s[1..];
      } else {
        var parts := Split(s, sep);
        assert parts[0] == [s[0]] + rest[0];
        assert parts[1..] == rest[1..];
        if |rest| == 1 {
          assert s == [s[0]] + s[1..];
        } else {
          assert Join(rest, sep) == rest[0] + [sep] + Join(rest[1..], sep);
          assert s == [s[0]] + s[1..];
        }
      }
    }
  }

  /** Joining separator-free pieces then splitting gives the pieces back. */
  lemma {:induction false} JoinSplit(parts: seq<string>, sep: char)
    requires |parts| >= 1
    requires forall i :: 0 <= i < |parts| ==> sep !in parts[i]
    ensures Split(Join(parts, sep), sep) == parts
  {
    if |parts| == 1 {
      SplitPlain(parts[0], sep);
    } else {
      JoinSplit(parts[1..], sep);
      SplitPrefix(parts[0], Join(parts[1..], sep), sep);
      assert parts == [parts[0]] + parts[1..];
    }
  }

  /** A separator-free string splits into itself. */
  lemma {:induction false} SplitPlain(s: string, sep: char)
    requires sep !in s
    ensures Split(s, sep) == [s]
  {
    if |s| > 0 {
      SplitPlain(s[1..], sep);
      assert s == [s[0]] + s[1..];
    }
  }

  /** A separator-free head followed by a separator splits off as the first piece. */
  lemma {:induction false} SplitPrefix(a: string, b: string, sep: char)
    requires sep !in a
    ensures Split(a + [sep] + b, sep) == [a] + Split(b, sep)
  {
    if |a| == 0 {
      assert a + [sep] + b == [sep] + b;
      assert ([sep] + b)[1..] == b;
    } else {
      SplitPrefix(a[1..], b, sep);
      assert (a + [sep] + b)[1..] == a[1..] + [sep] + b;
      assert [a[0]] + a[1..] == a;
    }
  }

  /** Python's `str.isspace` for one character. */
  predicate IsSpace(c: char)
  {
    ('\U{9}' <= c <= '\U{D}') || ('\U{1C}' <= c <= '\U{20}') || c == '\U{85}' || c == '\U{A0}' ||
    c == '\U{1680}' || ('\U{2000}' <= c <= '\U{200A}') || c == '\U{2028}' || c == '\U{2029}' ||
    c == '\U{202F}' || c == '\U{205F}' || c == '\U{3000}'
  }

  /** `s` without its leading whitespace. */
  function StripLeft(s: string): (r: string)
    ensures |r| <= |s| && r == s[|s| - |r|..]
    ensures forall i :: 0 <= i < |s| - |r| ==> IsSpace(s[i])
    ensures |r| > 0 ==> !IsSpace(r[0])
  {
    if |s| > 0 && IsSpace(s[0]) then StripLeft(s[1..]) else s
  }

  /** `s` without its trailing whitespace. */
  function StripRight(s: string): (r: string)
    ensures |r| <= |s| && r == s[..|r|]
    ensures forall i :: |r| <= i < |s| ==> IsSpace(s[i])
    ensures |r| > 0 ==> !IsSpace(r[|r| - 1])
  {
    if |s| > 0 && IsSpace(s[|s| - 1]) then StripRight(s[..|s| - 1]) else s
  }

  /** Python's `str.strip()`: beginning and ending with a non-space. */
  function Strip(s: string): (r: string)
    ensures |r| <= |s|
    ensures |r| > 0 ==> !IsSpace(r[0]) && !IsSpace(r[|r| - 1])
  {
    var l := StripLeft(s);
    var r := StripRight(l);
    assert |r| > 0 ==> r[0] == l[0];
    r
  }

  /** `r` is the slice of `s` from `i` on, and all of `s` outside the slice is whitespace. */
  ghost predicate CutFromBothEnds(s: string, i: int, r: string)
  {
    && 0 <= i <= |s| - |r|
    && r == s[i..i + |r|]
    && (forall k :: 0 <= k < i ==> IsSpace(s[k]))
    && (forall k :: i + |r| <= k < |s| ==> IsSpace(s[k]))
  }

  /**
   * Stripping keeps a middle slice of `s`, starting after the leading
   * whitespace, and cuts off only whitespace either side.
   */
  lemma StripCutsOnlySpace(s: string)
    ensures CutFromBothEnds(s, |s| - |StripLeft(s)|, Strip(s))
  {
    var l := StripLeft(s);
    var r := StripRight(l);
    CutBothEnds(s, l, r);
    assert Strip(s) == r;
  }

  /** A prefix of a suffix, with whitespace cut from both ends, is a middle slice with whitespace either side. */
  lemma CutBothEnds(s: string, l: string, r: string)
    requires |l| <= |s| && l == s[|s| - |l|..]
    requires forall k :: 0 <= k < |s| - |l| ==> IsSpace(s[k])
    requires |r| <= |l| && r == l[..|r|]
    requires forall k :: |r| <= k < |l| ==> IsSpace(l[k])
    ensures CutFromBothEnds(s, |s| - |l|, r)
  {
    var i := |s| - |l|;
    forall k | i + |r| <= k < |s| ensures IsSpace(s[k]) {
      assert s[k] == l[k - i];
    }
  }

  /** Stripping twice is stripping once. */
  lemma StripIdempotent(s: string)
    ensures Strip(Strip(s)) == Strip(s)
  {
    var r := Strip(s);
    if |r| > 0 {
      assert StripLeft(r) == r;
      assert StripRight(r) == r;
    }
  }

  /** Each piece of the list stripped. */
  function StripAll(parts: seq<string>): (r: seq<string>)
    ensures |r| == |parts|
    ensures forall i :: 0 <= i < |parts| ==> r[i] == Strip(parts[i])
  {
    if |parts| == 0 then [] else [Strip(parts[0])] + StripAll(parts[1..])
  }

  /** The machine's own preference list: the metadata entry split on ';', each piece stripped. */
  function MachinePreference(entry: string): (prefs: seq<string>)
    ensures |prefs| == |Split(entry, FormatSeparator)| >= 1
    ensures forall i :: 0 <= i < |prefs| ==> prefs[i] == Strip(Split(entry, FormatSeparator)[i])
  {
    StripAll(Split(entry, FormatSeparator))
  }

  /** The preference list used: UFP in front when firmware is 4.4 or later and the machine does not list it. */
  function Preferences(entry: string, firmwareAtLeast44: bool): (prefs: seq<string>)
    ensures |prefs| >= 1
    ensures UfpMime in MachinePreference(entry) || !firmwareAtLeast44 ==> prefs == MachinePreference(entry)
    ensures UfpMime !in MachinePreference(entry) && firmwareAtLeast44 ==>
      prefs[0] == UfpMime && prefs[1..] == MachinePreference(entry)
  {
    var machine := MachinePreference(entry);
    if UfpMime !in machine && firmwareAtLeast44 then [UfpMime] + machine else machine
  }

  /**
   * The list comprehension over the preferences: the formats in preference
   * order, or the first preferred type the application cannot write.
   */
  function Lookup(prefs: seq<string>, byMime: map<string, FileFormat>): (r: Result)
    ensures r.Found? ==> |r.formats| == |prefs| && forall i :: 0 <= i < |prefs| ==> prefs[i] in byMime && r.formats[i] == byMime[prefs[i]]
    ensures r.Missing? ==> exists i :: 0 <= i < |prefs| && prefs[i] == r.mime && r.mime !in byMime &&
                                          forall j :: 0 <= j < i ==> prefs[j] in byMime
    ensures r.Found? <==> forall i :: 0 <= i < |prefs| ==> prefs[i] in byMime
  {
    if |prefs| == 0 then Found([])
    else if prefs[0] !in byMime then Missing(prefs[0])
    else
      match Lookup(prefs[1..], byMime)
      case Found(fs) =>
        assert forall i :: 0 < i < |prefs| ==> prefs[i] == prefs[1..][i - 1];
        Found([byMime[prefs[0]]] + fs)
      case Missing(m) =>
        var i :| 0 <= i < |prefs[1..]| && prefs[1..][i] == m && m !in byMime &&
          forall j :: 0 <= j < i ==> prefs[1..][j] in byMime;
        assert prefs[i + 1] == m;
        assert forall j :: 0 <= j < i + 1 ==> prefs[j] in byMime by {
          forall j | 0 <= j < i + 1 ensures prefs[j] in byMime {
            if j > 0 { assert prefs[j] == prefs[1..][j - 1]; }
          }
        }
        Missing(m)
  }

  datatype Result = Found(formats: seq<FileFormat>) | Missing(mime: string)

  /** `m` is a preferred type that cannot be written, and every type preferred before it can. */
  ghost predicate FirstUnwritable(prefs: seq<string>, writable: set<string>, m: string)
  {
    exists i :: 0 <= i < |prefs| && prefs[i] == m && m !in writable && forall j :: 0 <= j < i ==> prefs[j] in writable
  }

  /**
   * The format a print job is written in. Without a global stack there is no
   * answer. Otherwise the first preferred type decides, provided every
   * preferred type is one the application can write (a repeated type keeps the
   * last format listed for it); the first one it cannot write fails the choice.
   */
  function DetermineFileFormat(appFormats: seq<FileFormat>, hasGlobalStack: bool, entry: string,
                               firmwareAtLeast44: bool): (r: FormatOutcome)
    ensures !hasGlobalStack <==> r.NoGlobalStack?
    ensures r.Chosen? ==>
      && r.format in appFormats
      && r.format.mimeType == Preferences(entry, firmwareAtLeast44)[0]
      && IsLastWith(appFormats, MimeOf, r.format.mimeType, r.format)
    ensures r.UnknownMime? ==>
      && r.mime in Preferences(entry, firmwareAtLeast44)
      && (forall f :: f in appFormats ==> f.mimeType != r.mime)
      && FirstUnwritable(Preferences(entry, firmwareAtLeast44), KeySetOf(appFormats, MimeOf), r.mime)
    ensures hasGlobalStack ==>
      (r.Chosen? <==> forall m :: m in Preferences(entry, firmwareAtLeast44) ==> m in KeySetOf(appFormats, MimeOf))
  {
    if !hasGlobalStack then NoGlobalStack
    else
      var prefs := Preferences(entry, firmwareAtLeast44);
      var byMime := KeyIndex(appFormats, MimeOf);
      match Lookup(prefs, byMime)
      case Missing(m) =>
        assert forall f :: f in appFormats ==> f.mimeType != m by {
          forall f | f in appFormats ensures f.mimeType != m {
            var i :| 0 <= i < |appFormats| && appFormats[i] == f;
            assert MimeOf(appFormats[i]) in KeySetOf(appFormats, MimeOf);
          }
        }
        UnknownMime(m)
      case Found(fs) =>
        if |fs| == 0 then NoFormats
        else
          KeyIndexSound(appFormats, MimeOf, prefs[0]);
          Chosen(fs[0])
  }

  /**
   * With a global stack the empty-list error cannot occur: splitting always
   * gives at least one preference, so the choice either succeeds or fails on
   * an unknown type first.
   */
  lemma DetermineFileFormatNeverEmpty(appFormats: seq<FileFormat>, entry: string, firmwareAtLeast44: bool)
    ensures !DetermineFileFormat(appFormats, true, entry, firmwareAtLeast44).NoFormats?
  {
    var prefs := Preferences(entry, firmwareAtLeast44);
    match Lookup(prefs, KeyIndex(appFormats, MimeOf))
    case Found(fs) => assert |fs| == |prefs| >= 1;
    case Missing(m) =>
  }

  /**
   * With firmware 4.4 or later and a UFP writer available, UFP is chosen when
   * the machine does not list it itself and every type it lists is writable.
   */
  lemma UfpPreferred(appFormats: seq<FileFormat>, entry: string)
    requires UfpMime !in MachinePreference(entry)
    requires forall m :: m in Preferences(entry, true) ==> m in KeySetOf(appFormats, MimeOf)
    ensures var r := DetermineFileFormat(appFormats, true, entry, true);
      r.Chosen? && r.format.mimeType == UfpMime
  {
    DetermineFileFormatNeverEmpty(appFormats, entry, true);
  }
}
