/** Repository ids and the cache folders named after them (common/hf-cache.cpp, common/common.cpp). */
module RepoFolder {

  // ----- replacing text

  /** Where `search` next stands in `s` at or after `from`, or the length of `s`. */
  function Find(s: string, search: string, from: nat): (r: nat)
    requires from <= |s| && search != ""
    ensures from <= r <= |s|
    ensures r < |s| ==> r + |search| <= |s|
    decreases |s| - from
  {
    if from + |search| > |s| then |s|
    else if s[from..from + |search|] == search then from
    else Find(s, search, from + 1)
  }

  /** Replaces every occurrence, from left to right. */
  function Replace(s: string, search: string, with: string, from: nat): string
    requires from <= |s| && search != ""
    decreases |s| - from
  {
    var pos := Find(s, search, from);
    if pos == |s| then s[from..]
    else s[from..pos] + with + Replace(s, search, with, pos + |search|)
  }

  method ReplaceAll(s: string, search: string, with: string) returns (r: string)
    ensures r == if search == "" then s else Replace(s, search, with, 0)
  {
    if search == "" {
      return s;
    }
    r := ReplaceLoop(s, search, with);
  }

  /** Built so far plus still to build is the whole result. */
  ghost predicate PartBuilt(s: string, search: string, with: string, builder: string, last: nat)
    requires search != ""
  {
    last <= |s| && builder + Replace(s, search, with, last) == Replace(s, search, with, 0)
  }

  method ReplaceLoop(s: string, search: string, with: string) returns (builder: string)
    requires search != ""
    ensures builder == Replace(s, search, with, 0)
  {
    builder := "";
    var last := 0;
    var pos := Find(s, search, last);
    while pos != |s|
      invariant PartBuilt(s, search, with, builder, last) && pos == Find(s, search, last)
      decreases |s| - last
    {
      builder := AppendReplaced(s, search, with, builder, last, pos);
      last := pos + |search|;
      pos := Find(s, search, last);
    }
    ReplaceEnds(builder, s, search, with, last);
    builder := builder + s[last..];
  }

  method AppendReplaced(s: string, search: string, with: string, builder: string, last: nat, pos: nat) returns (r: string)
    requires search != "" && PartBuilt(s, search, with, builder, last) && pos == Find(s, search, last) && pos != |s|
    ensures PartBuilt(s, search, with, r, pos + |search|)
  {
    ReplaceUnfolds(builder, s, search, with, last, pos);
    r := builder + s[last..pos] + with;
  }

  lemma ReplaceEnds(done: string, s: string, search: string, with: string, from: nat)
    requires from <= |s| && search != "" && Find(s, search, from) == |s|
    ensures done + Replace(s, search, with, from) == done + s[from..]
  {
  }

  lemma ReplaceUnfolds(done: string, s: string, search: string, with: string, from: nat, pos: nat)
    requires from <= |s| && search != "" && pos == Find(s, search, from) && pos != |s|
    ensures done + Replace(s, search, with, from)
         == done + s[from..pos] + with + Replace(s, search, with, pos + |search|)
  {
    Regroup(done, s[from..pos], with, Replace(s, search, with, pos + |search|));
  }

  lemma Regroup(a: string, b: string, c: string, d: string)
    ensures a + (b + c + d) == a + b + c + d
  {
  }

  // ----- the two replacements, character by character

  /** Slashes become double dashes. */
  function Dashed(s: string): string
    decreases |s|
  {
    if s == "" then "" else (if s[0] == '/' then "--" else [s[0]]) + Dashed(s[1..])
  }

  /** Double dashes become slashes, read from the left. */
  function Slashed(s: string): string
    decreases |s|
  {
    if s == "" then ""
    else if |s| >= 2 && s[0] == '-' && s[1] == '-' then "/" + Slashed(s[2..])
    else [s[0]] + Slashed(s[1..])
  }

  lemma FindSkips(s: string, search: string, from: nat)
    requires from < |s| && search != ""
    requires !(from + |search| <= |s| && s[from..from + |search|] == search)
    ensures Find(s, search, from) == Find(s, search, from + 1)
  {
  }

  lemma {:induction false} ReplaceIsDashed(s: string, from: nat)
    requires from <= |s|
    ensures Replace(s, "/", "--", from) == Dashed(s[from..])
    decreases |s| - from
  {
    if from < |s| {
      assert s[from..][0] == s[from] && s[from..][1..] == s[from + 1..];
      assert s[from..from + 1] == [s[from]];
      ReplaceIsDashed(s, from + 1);
      if s[from] == '/' {
        assert Find(s, "/", from) == from;
        assert s[from..from] == "";
      } else {
        FindSkips(s, "/", from);
        ReplaceShifts(s, "/", "--", from);
      }
    }
  }

  lemma {:induction false} ReplaceIsSlashed(s: string, from: nat)
    requires from <= |s|
    ensures Replace(s, "--", "/", from) == Slashed(s[from..])
    decreases |s| - from
  {
    if from < |s| {
      assert s[from..][0] == s[from] && s[from..][1..] == s[from + 1..];
      if from + 2 <= |s| {
        assert s[from..from + 2] == [s[from], s[from + 1]];
        assert s[from..][1] == s[from + 1] && s[from..][2..] == s[from + 2..];
      }
      if from + 2 <= |s| && s[from] == '-' && s[from + 1] == '-' {
        ReplaceIsSlashed(s, from + 2);
        assert Find(s, "--", from) == from;
        assert s[from..from] == "";
      } else {
        ReplaceIsSlashed(s, from + 1);
        FindSkips(s, "--", from);
        ReplaceShifts(s, "--", "/", from);
      }
    }
  }

  lemma ReplaceShifts(s: string, search: string, with: string, from: nat)
    requires from < |s| && search != "" && Find(s, search, from) == Find(s, search, from + 1)
    ensures Replace(s, search, with, from) == [s[from]] + Replace(s, search, with, from + 1)
  {
    var pos := Find(s, search, from);
    if pos == |s| {
      assert s[from..] == [s[from]] + s[from + 1..];
    } else {
      var rest := Replace(s, search, with, pos + |search|);
      assert s[from..pos] == [s[from]] + s[from + 1..pos];
      Front(s[from], s[from + 1..pos], with, rest);
    }
  }

  lemma Front(x: char, a: string, b: string, c: string)
    ensures [x] + a + b + c == [x] + (a + b + c)
  {
  }

  // ----- folders

  const PREFIX := "models--"

  method RepoToFolderName(repo: string) returns (folder: string)
    ensures folder == ToFolder(repo)
  {
    folder := ReplaceAll(PREFIX + repo, "/", "--");
    ReplaceIsDashed(PREFIX + repo, 0);
    assert (PREFIX + repo)[0..] == PREFIX + repo;
    DashedPrefix(PREFIX, repo);
  }

  /** A folder name that does not start with the prefix gives the empty id. */
  method FolderNameToRepo(folder: string) returns (repo: string)
    ensures repo == FromFolder(folder)
  {
    if !(PREFIX <= folder) {
      return "";
    }
    var rest := folder[|PREFIX|..];
    repo := ReplaceAll(rest, "--", "/");
    ReplaceIsSlashed(rest, 0);
    assert rest[0..] == rest;
  }

  function ToFolder(repo: string): string {
    PREFIX + Dashed(repo)
  }

  function FromFolder(folder: string): string {
    if PREFIX <= folder then Slashed(folder[|PREFIX|..]) else ""
  }

  lemma {:induction false} DashedPrefix(a: string, b: string)
    requires '/' !in a
    ensures Dashed(a + b) == a + Dashed(b)
    decreases |a|
  {
    if a == "" {
      assert a + b == b;
    } else {
      assert (a + b)[0] == a[0] && (a + b)[1..] == a[1..] + b;
      DashedPrefix(a[1..], b);
      assert a == [a[0]] + a[1..];
    }
  }

  /** No dash is followed by a dash or a slash. */
  predicate NoDashBefore(s: string) {
    forall i :: 0 <= i < |s| - 1 && s[i] == '-' ==> s[i + 1] != '-' && s[i + 1] != '/'
  }

  lemma SlashedSkips(c: char, rest: string)
    requires c != '-' || rest == "" || rest[0] != '-'
    ensures Slashed([c] + rest) == [c] + Slashed(rest)
  {
    var s := [c] + rest;
    assert s[0] == c && s[1..] == rest;
    assert |s| >= 2 ==> s[1] == rest[0];
  }

  lemma SlashedPair(rest: string)
    ensures Slashed("--" + rest) == "/" + Slashed(rest)
  {
    var s := "--" + rest;
    assert s[0] == '-' && s[1] == '-' && s[2..] == rest;
  }

  lemma {:induction false} SlashedDashed(s: string)
    ensures NoDashBefore(s) ==> Slashed(Dashed(s)) == s
    decreases |s|
  {
    if s != "" && NoDashBefore(s) {
      var rest := Dashed(s[1..]);
      assert NoDashBefore(s[1..]) by {
        forall i | 0 <= i < |s[1..]| - 1 && s[1..][i] == '-' ensures s[1..][i + 1] != '-' && s[1..][i + 1] != '/' {
          assert s[i + 1] == '-';
        }
      }
      SlashedDashed(s[1..]);
      assert s == [s[0]] + s[1..];
      if s[0] == '/' {
        SlashedPair(rest);
      } else {
        if s[0] == '-' && |s| > 1 {
          assert s[0 + 1] != '-' && s[0 + 1] != '/';
          assert rest[0] == s[1];
        }
        SlashedSkips(s[0], rest);
      }
    }
  }

  /** Where a dash is followed by a dash or a slash, reading back gives a slash too early. */
  lemma {:induction false} SlashedDashedFails(s: string)
    requires !NoDashBefore(s)
    ensures Slashed(Dashed(s)) != s
    decreases |s|
  {
    var rest := Dashed(s[1..]);
    assert s == [s[0]] + s[1..];
    if s[0] == '-' && (s[1] == '-' || s[1] == '/') {
      assert rest[0] == '-';
      assert Dashed(s) == ['-'] + rest && Dashed(s)[0] == '-' && Dashed(s)[1] == '-';
      assert Slashed(Dashed(s))[0] == '/';
    } else {
      var i :| 0 <= i < |s| - 1 && s[i] == '-' && (s[i + 1] == '-' || s[i + 1] == '/');
      assert s[1..][i - 1] == '-' && s[1..][(i - 1) + 1] == s[i + 1];
      SlashedDashedFails(s[1..]);
      if s[0] == '/' {
        SlashedPair(rest);
        assert Slashed(Dashed(s))[1..] == Slashed(rest);
      } else {
        assert |s| > 1;
        assert rest != "" && (s[0] == '-' ==> rest[0] != '-');
        SlashedSkips(s[0], rest);
        assert Slashed(Dashed(s))[1..] == Slashed(rest);
      }
    }
  }

  /** The folder of a repository leads back to it exactly when no dash of its id stands before a dash or a
      slash. */
  lemma FolderRoundTripIff(repo: string)
    ensures FromFolder(ToFolder(repo)) == repo <==> NoDashBefore(repo)
  {
    assert ToFolder(repo)[|PREFIX|..] == Dashed(repo);
    if NoDashBefore(repo) {
      SlashedDashed(repo);
    } else {
      SlashedDashedFails(repo);
    }
  }

  lemma {:induction false} DashedSlashed(s: string)
    requires '/' !in s
    ensures Dashed(Slashed(s)) == s
    decreases |s|
  {
    if s != "" {
      if |s| >= 2 && s[0] == '-' && s[1] == '-' {
        DashedSlashed(s[2..]);
        assert Slashed(s)[1..] == Slashed(s[2..]);
        assert s == "--" + s[2..];
      } else {
        DashedSlashed(s[1..]);
        assert Slashed(s)[1..] == Slashed(s[1..]);
        assert s == [s[0]] + s[1..];
      }
    }
  }

  lemma {:induction false} DashedHasNoSlash(s: string)
    ensures '/' !in Dashed(s)
    decreases |s|
  {
    if s != "" {
      DashedHasNoSlash(s[1..]);
    }
  }

  /** A prefixed folder name survives the trip through an id exactly when it has no slash. */
  lemma RepoRoundTripIff(folder: string)
    requires PREFIX <= folder
    ensures ToFolder(FromFolder(folder)) == folder <==> '/' !in folder
  {
    var rest := folder[|PREFIX|..];
    assert folder == PREFIX + rest;
    if '/' !in folder {
      DashedSlashed(rest);
    } else {
      DashedHasNoSlash(Slashed(rest));
      assert '/' !in PREFIX;
    }
  }

  // ----- valid ids

  predicate IsBase(c: char) {
    'A' <= c <= 'Z' || 'a' <= c <= 'z' || '0' <= c <= '9' || c == '_'
  }

  predicate IsSpecial(c: char) {
    c == '/' || c == '.' || c == '-'
  }

  function CountSlashes(s: string): nat {
    if s == "" then 0 else CountSlashes(s[..|s| - 1]) + (if s[|s| - 1] == '/' then 1 else 0)
  }

  /** Base characters and specials, every special between two base characters, exactly one slash. */
  predicate ValidRepoId(s: string) {
    && 1 <= |s| <= 256
    && (forall i :: 0 <= i < |s| ==> IsBase(s[i]) || IsSpecial(s[i]))
    && IsBase(s[0]) && IsBase(s[|s| - 1])
    && (forall i :: 0 < i < |s| ==> IsSpecial(s[i]) ==> IsBase(s[i - 1]))
    && CountSlashes(s) == 1
  }

  /** The automaton as written: it remembers whether the previous character was special. */
  method IsValidRepoId(repo: string) returns (ok: bool)
    ensures ok == ValidRepoId(repo)
  {
    if repo == "" || |repo| > 256 {
      return false;
    }
    var slash, special := 0, true;
    for i := 0 to |repo|
      invariant special <==> i == 0 || IsSpecial(repo[i - 1])
      invariant i > 0 ==> IsBase(repo[0])
      invariant forall j :: 0 <= j < i ==> IsBase(repo[j]) || IsSpecial(repo[j])
      invariant forall j :: 0 < j < i ==> IsSpecial(repo[j]) ==> IsBase(repo[j - 1])
      invariant slash == CountSlashes(repo[..i])
    {
      var c := repo[i];
      assert repo[..i + 1][..i] == repo[..i];
      if IsBase(c) {
        special := false;
      } else if IsSpecial(c) {
        if special {
          return false;
        }
        if c == '/' {
          slash := slash + 1;
        }
        special := true;
      } else {
        return false;
      }
    }
    assert repo[..|repo|] == repo;
    ok := !special && slash == 1;
  }

  lemma ValidHasNoDashBefore(repo: string)
    requires ValidRepoId(repo)
    ensures NoDashBefore(repo)
  {
    forall i | 0 <= i < |repo| - 1
      ensures repo[i] == '-' ==> repo[i + 1] != '-' && repo[i + 1] != '/'
    {
      assert IsSpecial(repo[i + 1]) ==> IsBase(repo[(i + 1) - 1]);
    }
  }

  /** Valid ids come back from their folders, so two valid ids never share a folder. */
  lemma ValidIdsDoNotCollide(a: string, b: string)
    requires ValidRepoId(a) && ValidRepoId(b)
    ensures FromFolder(ToFolder(a)) == a
    ensures ToFolder(a) == ToFolder(b) ==> a == b
  {
    ValidHasNoDashBefore(a);
    ValidHasNoDashBefore(b);
    FolderRoundTripIff(a);
    FolderRoundTripIff(b);
  }

  lemma {:induction false} DashedSkips(s: string)
    requires '/' !in s
    ensures Dashed(s) == s
    decreases |s|
  {
    if s != "" {
      DashedSkips(s[1..]);
      assert s == [s[0]] + s[1..];
    }
  }

  /** The folder of an id with an owner and a name. */
  lemma FolderOfId(owner: string, name: string)
    requires '/' !in owner && '/' !in name
    ensures ToFolder(owner + "/" + name) == "models--" + owner + "--" + name
  {
    var rest := "/" + name;
    assert owner + "/" + name == owner + rest;
    DashedPrefix(owner, rest);
    assert rest[1..] == name;
    DashedSkips(name);
    Outward("models--", owner, "--", name);
  }

  lemma Outward(a: string, b: string, c: string, d: string)
    ensures a + (b + (c + d)) == a + b + c + d
  {
  }

  /** One slash is one position. */
  lemma {:induction false} NoSlashIff(s: string)
    ensures CountSlashes(s) == 0 <==> forall i :: 0 <= i < |s| ==> s[i] != '/'
    decreases |s|
  {
    if s != "" {
      var n := |s| - 1;
      NoSlashIff(s[..n]);
      assert forall i :: 0 <= i < n ==> s[..n][i] == s[i];
    }
  }

  predicate OnlySlash(s: string, k: int) {
    0 <= k < |s| && s[k] == '/' && forall i :: 0 <= i < |s| && s[i] == '/' ==> i == k
  }

  lemma {:induction false} OneSlashIff(s: string)
    ensures CountSlashes(s) == 1 <==> exists k :: OnlySlash(s, k)
    decreases |s|
  {
    if s != "" {
      var n := |s| - 1;
      NoSlashIff(s[..n]);
      OneSlashIff(s[..n]);
      assert forall i :: 0 <= i < n ==> s[..n][i] == s[i];
      if CountSlashes(s) == 1 {
        if s[n] == '/' {
          assert OnlySlash(s, n);
        } else {
          var k :| OnlySlash(s[..n], k);
          assert OnlySlash(s, k);
        }
      }
      if k :| OnlySlash(s, k) {
        assert k < n ==> OnlySlash(s[..n], k);
      }
    }
  }

  const SPECIALS := {'/', '.', '-'}

  /** A letter, a digit or an underscore, or a special between two of them. */
  predicate WellPlaced(s: string, i: nat)
    requires i < |s|
  {
    || 'A' <= s[i] <= 'Z' || 'a' <= s[i] <= 'z' || '0' <= s[i] <= '9' || s[i] == '_'
    || (s[i] in SPECIALS && 0 < i < |s| - 1 && s[i - 1] !in SPECIALS && s[i + 1] !in SPECIALS)
  }

  /** An id is valid exactly if it is not too long, has one slash, and all its characters are well placed. */
  lemma ValidIdIff(s: string)
    ensures ValidRepoId(s) <==>
              && 1 <= |s| <= 256
              && (exists k :: OnlySlash(s, k))
              && forall i :: 0 <= i < |s| ==> WellPlaced(s, i)
  {
    OneSlashIff(s);
    if ValidRepoId(s) {
      forall i | 0 <= i < |s|
        ensures WellPlaced(s, i)
      {
        assert i < |s| - 1 && IsSpecial(s[i + 1]) ==> IsBase(s[(i + 1) - 1]);
      }
    } else if s != "" && forall i :: 0 <= i < |s| ==> WellPlaced(s, i) {
      assert WellPlaced(s, 0) && WellPlaced(s, |s| - 1);
      forall i | 0 < i < |s| && IsSpecial(s[i])
        ensures IsBase(s[i - 1])
      {
        assert WellPlaced(s, i) && WellPlaced(s, i - 1);
      }
      assert forall i :: 0 <= i < |s| && WellPlaced(s, i) ==> IsBase(s[i]) || IsSpecial(s[i]);
    }
  }
}
