/**
 * The version-bump script scripts/updateVersion.js: read the current version from the
 * version file, bump one component according to the command-line argument and write a
 * one-line file back. The file read and write are replaced by string input and output.
 */
module UpdateVersion {
  import opened Wrappers

  datatype Version = Version(major: nat, minor: nat, patch: nat)
  datatype UpdateType = Major | Minor | Patch

  // ---------------------------------------------------------------------------
  // The pattern /["'](.+)["']/ (first match, greedy body, `.` stops at a line end)

  predicate IsQuote(c: char) {
    c == '"' || c == '\''
  }

  /** The characters a regular-expression `.` does not match. */
  predicate IsLineTerminator(c: char) {
    c == '\n' || c == '\r' || c == '\U{2028}' || c == '\U{2029}'
  }

  /** The index of the first line terminator at or after `i`, or |s|. */
  function LineEnd(s: string, i: nat): (e: nat)
    requires i <= |s|
    ensures i <= e <= |s|
    ensures forall k :: i <= k < e ==> !IsLineTerminator(s[k])
    ensures e < |s| ==> IsLineTerminator(s[e])
    decreases |s| - i
  {
    if i == |s| || IsLineTerminator(s[i]) then i else LineEnd(s, i + 1)
  }

  /** The greatest index in [lo, hi) that holds a quote. */
  function LastQuote(s: string, lo: nat, hi: nat): (r: Option<nat>)
    requires lo <= hi <= |s|
    ensures r.Some? ==> lo <= r.value < hi && IsQuote(s[r.value])
    ensures r.Some? ==> forall k :: r.value < k < hi ==> !IsQuote(s[k])
    ensures r.None? ==> forall k :: lo <= k < hi ==> !IsQuote(s[k])
    decreases hi - lo
  {
    if hi == lo then None
    else if IsQuote(s[hi - 1]) then Some(hi - 1)
    else LastQuote(s, lo, hi - 1)
  }

  /**
   * The closing quote of a match whose opening quote is at `i`: the last quote on the same
   * line that leaves at least one character between the two.
   */
  function ClosingQuote(s: string, i: nat): (r: Option<nat>)
    requires i < |s|
    ensures r.Some? ==> i + 2 <= r.value < |s| && IsQuote(s[r.value])
    ensures r.Some? ==> forall k :: i < k < r.value ==> !IsLineTerminator(s[k])
  {
    var e := LineEnd(s, i + 1);
    if IsQuote(s[i]) && i + 2 <= e then LastQuote(s, i + 2, e) else None
  }

  /** The capture group of the leftmost match starting at or after `i`. */
  function MatchFrom(s: string, i: nat): (r: Option<string>)
    requires i <= |s|
    decreases |s| - i
  {
    if i == |s| then None
    else match ClosingQuote(s, i)
      case Some(j) => Some(s[i + 1 .. j])
      case None => MatchFrom(s, i + 1)
  }

  /** `fileContent.match(/["'](.+)["']/)[1]`; None where the script would throw. */
  function CurrentVersion(content: string): Option<string> {
    MatchFrom(content, 0)
  }

  // ---------------------------------------------------------------------------
  // `currentVersion.split(".").map(Number)`

  /** `s.split(sep)`: the pieces between separators, always at least one. */
  function Split(s: string, sep: char): (parts: seq<string>)
    ensures |parts| >= 1
    ensures forall k :: 0 <= k < |parts| ==> sep !in parts[k]
    decreases |s|
  {
    if s == [] then [""]
    else
      var rest := Split(s[1..], sep);
      if s[0] == sep then [""] + rest
      else [[s[0]] + rest[0]] + rest[1..]
  }

  /** Joining the pieces with the separator gives back the split string. */
  function Join(parts: seq<string>, sep: char): string
    requires |parts| >= 1
  {
    if |parts| == 1 then parts[0] else parts[0] + [sep] + Join(parts[1..], sep)
  }

  predicate IsDigit(c: char) {
    '0' <= c <= '9'
  }

  predicate AllDigits(s: string) {
    forall k :: 0 <= k < |s| ==> IsDigit(s[k])
  }

  /** The value of a string of decimal digits; the empty string is 0, as for `Number("")`. */
  function DigitsValue(s: string): nat
    requires AllDigits(s)
  {
    if s == [] then 0
    else DigitsValue(s[..|s| - 1]) * 10 + (s[|s| - 1] as int - '0' as int)
  }

  /**
   * One element of `currentVersion.split(".").map(Number)` as the script uses it: a whole
   * number, NaN, or `undefined` when the version has fewer parts.
   */
  datatype Component = Whole(n: nat) | NotANumber | Missing

  /** `Number(part)` for a part that exists: decimal digits give their value, anything else NaN. */
  function ToNumber(part: string): Component {
    if AllDigits(part) then Whole(DigitsValue(part)) else NotANumber
  }

  /** The `i`-th element of the destructured array; `undefined` past its end. */
  function ComponentAt(parts: seq<string>, i: nat): Component {
    if i < |parts| then ToNumber(parts[i]) else Missing
  }

  /** `const [major, minor, patch] = v.split(".").map(Number)`: pieces after the third are ignored. */
  datatype Parsed = Parsed(major: Component, minor: Component, patch: Component)

  function ParseVersion(v: string): (p: Parsed)
    ensures p.major != Missing
  {
    var parts := Split(v, '.');
    Parsed(ComponentAt(parts, 0), ComponentAt(parts, 1), ComponentAt(parts, 2))
  }

  // ---------------------------------------------------------------------------
  // The bump and the rendered file

  /** `process.argv[2] || "patch"` followed by the switch's choice of case. */
  function SelectUpdate(arg: Option<string>): UpdateType {
    if arg == Some("major") then Major
    else if arg == Some("minor") then Minor
    else Patch
  }

  /** The intended bump of a well-formed version: one component up, the lower ones reset. */
  function Bump(v: Version, t: UpdateType): Version {
    match t
    case Major => Version(v.major + 1, 0, 0)
    case Minor => Version(v.major, v.minor + 1, 0)
    case Patch => Version(v.major, v.minor, v.patch + 1)
  }

  /** The decimal text of a number, as a template literal prints it. */
  function NatToString(n: nat): (s: string)
    ensures |s| >= 1 && AllDigits(s)
    decreases n
  {
    if n < 10 then [('0' as int + n) as char]
    else NatToString(n / 10) + [('0' as int + n % 10) as char]
  }

  function Show(v: Version): string {
    NatToString(v.major) + "." + NatToString(v.minor) + "." + NatToString(v.patch)
  }

  /** `c + 1`: NaN for NaN and for `undefined`. */
  function PlusOne(c: Component): (r: Component)
    ensures r != Missing
    ensures c.Whole? <==> r.Whole?
    ensures c.Whole? ==> r.n == c.n + 1
  {
    if c.Whole? then Whole(c.n + 1) else NotANumber
  }

  /** How a template literal prints a component. */
  function Text(c: Component): string {
    match c
    case Whole(n) => NatToString(n)
    case NotANumber => "NaN"
    case Missing => "undefined"
  }

  /** The `switch` of the script: the new version text built from the parsed components. */
  function Render(p: Parsed, t: UpdateType): string {
    match t
    case Major => Text(PlusOne(p.major)) + ".0.0"
    case Minor => Text(p.major) + "." + Text(PlusOne(p.minor)) + ".0"
    case Patch => Text(p.major) + "." + Text(p.minor) + "." + Text(PlusOne(p.patch))
  }

  /** The whole new content of the version file. */
  function NewContent(version: string): string {
    "export const version = \"" + version + "\";\n"
  }

  /** The whole script: the new file content, or None where the `match` finds nothing and the script throws. */
  function UpdateVersionFile(content: string, arg: Option<string>): Option<string> {
    match CurrentVersion(content)
    case None => None
    case Some(current) =>
      Some(NewContent(Render(ParseVersion(current), SelectUpdate(arg))))
  }

  // ---------------------------------------------------------------------------
  // Properties

  /** Versions ordered by major, then minor, then patch. */
  predicate Less(a: Version, b: Version) {
    a.major < b.major
    || (a.major == b.major && a.minor < b.minor)
    || (a.major == b.major && a.minor == b.minor && a.patch < b.patch)
  }

  /** Every bump moves to a strictly greater version and resets the lower components. */
  lemma BumpIncreases(v: Version, t: UpdateType)
    ensures Less(v, Bump(v, t))
    ensures t == Major ==> Bump(v, t) == Version(v.major + 1, 0, 0)
    ensures t == Minor ==> Bump(v, t) == Version(v.major, v.minor + 1, 0)
    ensures t == Patch ==> Bump(v, t) == Version(v.major, v.minor, v.patch + 1)
  {
  }

  /** Only the literal arguments "major" and "minor" select something other than a patch bump. */
  lemma SelectUpdateDefaults(arg: Option<string>)
    ensures SelectUpdate(arg) == Major <==> arg == Some("major")
    ensures SelectUpdate(arg) == Minor <==> arg == Some("minor")
    ensures arg == None || arg == Some("") || arg == Some("patch") ==> SelectUpdate(arg) == Patch
  {
  }

  lemma {:induction false} DigitsValueOfNatToString(n: nat)
    ensures DigitsValue(NatToString(n)) == n
    decreases n
  {
    var s := NatToString(n);
    if n >= 10 {
      DigitsValueOfNatToString(n / 10);
      assert s[..|s| - 1] == NatToString(n / 10);
    }
  }

  /** Splitting a string that starts with a separator-free piece peels off that piece. */
  lemma {:induction false} SplitPrefix(a: string, sep: char, rest: string)
    requires sep !in a
    ensures Split(a + [sep] + rest, sep) == [a] + Split(rest, sep)
    decreases |a|
  {
    if a == [] {
      assert a + [sep] + rest == [sep] + rest;
      assert ([sep] + rest)[1..] == rest;
    } else {
      var s := a + [sep] + rest;
      assert s[1..] == a[1..] + [sep] + rest;
      SplitPrefix(a[1..], sep, rest);
      assert [a[0]] + a[1..] == a;
    }
  }

  lemma {:induction false} SplitNoSeparator(a: string, sep: char)
    requires sep !in a
    ensures Split(a, sep) == [a]
    decreases |a|
  {
    if a != [] {
      SplitNoSeparator(a[1..], sep);
      assert [a[0]] + a[1..] == a;
    }
  }

  /** Splitting then joining gives back the string. */
  lemma {:induction false} JoinSplit(s: string, sep: char)
    ensures Join(Split(s, sep), sep) == s
    decreases |s|
  {
    if s != [] {
      JoinSplit(s[1..], sep);
      var rest := Split(s[1..], sep);
      if s[0] == sep {
        assert ([""] + rest)[1..] == rest;
      } else {
        var parts := Split(s, sep);
        assert parts[1..] == rest[1..];
        if |rest| == 1 {
          assert Join(parts, sep) == [s[0]] + rest[0];
        } else {
          assert Join(parts, sep) == [s[0]] + rest[0] + [sep] + Join(rest[1..], sep);
        }
      }
    }
  }

  /** Rendering a version and parsing it back gives its three components. */
  lemma ParseShow(v: Version)
    ensures ParseVersion(Show(v)) == Parsed(Whole(v.major), Whole(v.minor), Whole(v.patch))
  {
    var a, b, c := NatToString(v.major), NatToString(v.minor), NatToString(v.patch);
    assert '.' !in a && '.' !in b && '.' !in c by {
      assert AllDigits(a) && AllDigits(b) && AllDigits(c);
    }
    assert Show(v) == a + ['.'] + (b + ['.'] + c);
    SplitPrefix(a, '.', b + ['.'] + c);
    SplitPrefix(b, '.', c);
    SplitNoSeparator(c, '.');
    DigitsValueOfNatToString(v.major);
    DigitsValueOfNatToString(v.minor);
    DigitsValueOfNatToString(v.patch);
  }

  /** On three whole components the script's `switch` prints exactly the intended bump. */
  lemma RenderIsBump(v: Version, t: UpdateType)
    ensures Render(Parsed(Whole(v.major), Whole(v.minor), Whole(v.patch)), t) == Show(Bump(v, t))
  {
    assert NatToString(0) == "0";
  }

  /** A bump reads only the components it prints: parts below the bumped one are never used. */
  lemma RenderReadsOnlyItsParts(p: Parsed, minor: Component, patch: Component)
    ensures Render(p, Major) == Render(p.(minor := minor, patch := patch), Major)
    ensures Render(p, Minor) == Render(p.(patch := patch), Minor)
  {
  }

  /** "1" has only a major component; "1.2.x" has a patch part that is not a number. */
  lemma {:induction false} ParseShortVersions()
    ensures ParseVersion("1") == Parsed(Whole(1), Missing, Missing)
    ensures ParseVersion("1.2.x") == Parsed(Whole(1), Whole(2), NotANumber)
  {
    SplitNoSeparator("1", '.');
    assert "1.2.x" == "1" + ['.'] + "2.x";
    SplitPrefix("1", '.', "2.x");
    assert "2.x" == "2" + ['.'] + "x";
    SplitPrefix("2", '.', "x");
    SplitNoSeparator("x", '.');
    assert Split("1.2.x", '.') == ["1", "2", "x"];
    assert DigitsValue("1") == 1 && DigitsValue("2") == 2 by {
      assert "1"[..0] == [] && "2"[..0] == [];
    }
    assert !AllDigits("x") by { assert !IsDigit("x"[0]); }
  }

  /**
   * Short or partly malformed versions: "1" bumps to "2.0.0" as a major update, "1.2.x"
   * to "1.3.0" as a minor one, while a part that is needed and is not a number prints as
   * NaN, and one that is missing as undefined.
   */
  lemma ShortVersions()
    ensures Render(ParseVersion("1"), Major) == "2.0.0"
    ensures Render(ParseVersion("1.2.x"), Minor) == "1.3.0"
    ensures Render(ParseVersion("1.2.x"), Patch) == "1.2.NaN"
    ensures Render(ParseVersion("1"), Patch) == "1.undefined.NaN"
  {
    ParseShortVersions();
    RenderShortParts();
  }

  /** The renderings of a one-part version and of one whose third part is not a number. */
  lemma RenderShortParts()
    ensures Render(Parsed(Whole(1), Missing, Missing), Major) == "2.0.0"
    ensures Render(Parsed(Whole(1), Whole(2), NotANumber), Minor) == "1.3.0"
    ensures Render(Parsed(Whole(1), Whole(2), NotANumber), Patch) == "1.2.NaN"
    ensures Render(Parsed(Whole(1), Missing, Missing), Patch) == "1.undefined.NaN"
  {
    assert NatToString(1) == "1" && NatToString(2) == "2" && NatToString(3) == "3";
  }

  /** No quote and no line terminator occurs in a rendered version. */
  lemma ShowIsPlain(v: Version)
    ensures |Show(v)| >= 1
    ensures forall k :: 0 <= k < |Show(v)| ==> !IsQuote(Show(v)[k]) && !IsLineTerminator(Show(v)[k])
  {
    var a, b, c := NatToString(v.major), NatToString(v.minor), NatToString(v.patch);
    assert AllDigits(a) && AllDigits(b) && AllDigits(c);
    var s := Show(v);
    forall k | 0 <= k < |s| ensures !IsQuote(s[k]) && !IsLineTerminator(s[k]) {
      if k < |a| { assert s[k] == a[k]; }
      else if k == |a| { assert s[k] == '.'; }
      else if k < |a| + 1 + |b| { assert s[k] == b[k - |a| - 1]; }
      else if k == |a| + 1 + |b| { assert s[k] == '.'; }
      else { assert s[k] == c[k - |a| - |b| - 2]; }
    }
  }

  /** Reading back the written file with the same pattern yields the version written. */
  lemma {:induction false} RereadNewContent(version: string)
    requires |version| >= 1
    requires forall k :: 0 <= k < |version| ==> !IsQuote(version[k]) && !IsLineTerminator(version[k])
    ensures CurrentVersion(NewContent(version)) == Some(version)
  {
    var s := NewContent(version);
    var q := |"export const version = "|;
    var n := |version|;
    assert |s| == q + n + 4;
    assert s[q] == '"' && s[q + n + 1] == '"' && s[q + n + 3] == '\n';
    assert forall k :: q < k <= q + n ==> s[k] == version[k - q - 1];
    assert forall k :: 0 <= k < q ==> !IsQuote(s[k]);
    // the opening quote is the first quote in the content
    forall i | 0 <= i < q ensures MatchFrom(s, i) == MatchFrom(s, i + 1) {
      assert ClosingQuote(s, i).None?;
    }
    MatchFromSkips(s, 0, q);
    // its line ends at the final newline, and the last quote before that closes the match
    LineEndAt(s, q + 1, q + n + 3);
    assert ClosingQuote(s, q) == Some(q + n + 1) by {
      assert s[q + n + 2] == ';';
    }
    assert s[q + 1 .. q + n + 1] == version;
  }

  lemma {:induction false} MatchFromSkips(s: string, i: nat, j: nat)
    requires i <= j <= |s|
    requires forall k :: i <= k < j ==> MatchFrom(s, k) == MatchFrom(s, k + 1)
    ensures MatchFrom(s, i) == MatchFrom(s, j)
    decreases j - i
  {
    if i < j {
      MatchFromSkips(s, i + 1, j);
    }
  }

  lemma {:induction false} LineEndAt(s: string, i: nat, e: nat)
    requires i <= e < |s| && IsLineTerminator(s[e])
    requires forall k :: i <= k < e ==> !IsLineTerminator(s[k])
    ensures LineEnd(s, i) == e
    decreases e - i
  {
    if i < e {
      LineEndAt(s, i + 1, e);
    }
  }

  /**
   * The whole script: for a file whose first quoted string is a version, the new content
   * is the one-line file holding the bumped version, and reading it back gives that version.
   */
  lemma UpdateVersionFileSpec(content: string, arg: Option<string>, v: Version)
    requires CurrentVersion(content) == Some(Show(v))
    ensures UpdateVersionFile(content, arg) == Some(NewContent(Show(Bump(v, SelectUpdate(arg)))))
    ensures CurrentVersion(NewContent(Show(Bump(v, SelectUpdate(arg))))) == Some(Show(Bump(v, SelectUpdate(arg))))
  {
    ParseShow(v);
    RenderIsBump(v, SelectUpdate(arg));
    var w := Bump(v, SelectUpdate(arg));
    ShowIsPlain(w);
    RereadNewContent(Show(w));
  }
}
