/** Resolving profile names against one state of the machine: what was registered, the directory, the
    embedded profiles and the catalogue. A name nobody knows may still be a family, and a family is resolved
    by resolving its members. */
module Registry {
  import opened Common
  import opened Text

  datatype Profile = Profile(name: string, base: string, clientHello: seq<int>)

  datatype Error = NoName | NoSuchFile | Malformed | UnknownProfile

  /** `names` is the list of everything that can be resolved, in the order in which it is listed. */
  datatype Sources = Sources(
    added: map<string, Profile>,
    files: map<string, Result<Profile, Error>>,
    directory: map<string, Result<Profile, Error>>,
    embedded: map<string, Result<Profile, Error>>,
    catalogue: set<string>,
    names: seq<string>)

  predicate EndsWith(s: string, suffix: string) {
    |s| >= |suffix| && s[|s| - |suffix|..] == suffix
  }

  predicate LooksLikePath(name: string) {
    EndsWith(Lower(name), ".json") || '/' in name
  }

  /** A member of a family: the family, an underscore and a version number. */
  function MajorOf(family: string, name: string): Option<int> {
    if family + "_" <= name then ParseInt(name[|family| + 1..]) else None
  }

  function Longest(names: seq<string>): nat {
    if names == [] then 0
    else
      var front := Longest(names[..|names| - 1]);
      if |names[|names| - 1]| > front then |names[|names| - 1]| else front
  }

  lemma {:induction false} LongestIsLongest(names: seq<string>, name: string)
    requires name in names
    ensures |name| <= Longest(names)
  {
    if name != names[|names| - 1] {
      assert names == names[..|names| - 1] + [names[|names| - 1]];
      LongestIsLongest(names[..|names| - 1], name);
    }
  }

  /** How much longer a listed name can still get: what bounds the recursion. */
  function Room(s: Sources, name: string): nat {
    if |name| <= Longest(s.names) then Longest(s.names) - |name| else 0
  }

  lemma MembersAreLonger(s: Sources, family: string, name: string)
    requires name in s.names && MajorOf(family, name).Some?
    ensures Room(s, name) < Room(s, family) && name != ""
  {
    LongestIsLongest(s.names, name);
    assert |family + "_"| == |family| + 1;
  }

  // ---------------------------------------------------------------------------------------------
  // Resolution.

  /** The best member so far. */
  datatype Best = Best(name: string, major: int, measured: bool)

  const NOBODY := Best("", -1, false)

  function Better(b: Best, name: string, major: int, measured: bool): Best {
    if measured != b.measured then (if measured then Best(name, major, true) else b)
    else if major > b.major then Best(name, major, b.measured)
    else b
  }

  function Resolved(s: Sources, name: string): Option<Result<Profile, Error>> {
    if name == "" then Some(Err(NoName))
    else if name in s.added then Some(Ok(s.added[name]))
    else if LooksLikePath(name) then Some(if name in s.files then s.files[name] else Err(NoSuchFile))
    else if name in s.directory then Some(s.directory[name])
    else if name in s.embedded then Some(s.embedded[name])
    else if name in s.catalogue then Some(Ok(Profile(name, name, [])))
    else None
  }

  function Get(s: Sources, name: string): Result<Profile, Error>
    decreases Room(s, name), 2, 0
  {
    if Resolved(s, name).Some? then Resolved(s, name).value
    else
      var newest := Newest(s, name, s.names).name;
      if newest == "" then Err(UnknownProfile)
      else
        MembersAreLonger(s, name, newest);
        Get(s, newest)
  }

  function Newest(s: Sources, family: string, part: seq<string>): (b: Best)
    requires forall n <- part :: n in s.names
    ensures b.name != "" ==> b.name in part && MajorOf(family, b.name) == Some(b.major)
    decreases Room(s, family), 1, |part|
  {
    if part == [] then NOBODY
    else
      var name := part[|part| - 1];
      var b := Newest(s, family, part[..|part| - 1]);
      var major := MajorOf(family, name);
      if major.None? then b
      else
        MembersAreLonger(s, family, name);
        Better(b, name, major.value, HasHandshake(s, name))
  }

  predicate HasHandshake(s: Sources, name: string)
    decreases Room(s, name), 3, 0
  {
    var p := Get(s, name);
    p.Ok? && p.value.clientHello != []
  }

  method NewestInFamily(s: Sources, family: string) returns (best: string)
    ensures best == Newest(s, family, s.names).name
  {
    hide MajorOf, Get, Resolved, HasHandshake;
    var bestMajor, bestMeasured := -1, false;
    best := "";
    for i := 0 to |s.names|
      invariant Best(best, bestMajor, bestMeasured) == Newest(s, family, s.names[..i])
    {
      assert s.names[..i + 1][..i] == s.names[..i];
      var name := s.names[i];
      var major := MajorOf(family, name);
      if major.None? {
        continue;
      }
      var measured := HasHandshake(s, name);
      if measured != bestMeasured {
        if measured {
          best, bestMajor, bestMeasured := name, major.value, true;
        }
        continue;
      }
      if major.value > bestMajor {
        best, bestMajor := name, major.value;
      }
    }
    assert s.names[..|s.names|] == s.names;
  }

  // ---------------------------------------------------------------------------------------------
  // What a family name means.

  predicate IsMember(s: Sources, family: string, part: seq<string>, n: string) {
    n in part && MajorOf(family, n).Some?
  }

  /** The best of part of the list: measured before unmeasured, and the highest version among its like. */
  ghost predicate IsBest(s: Sources, family: string, part: seq<string>, b: Best) {
    && (b.name != "" ==> IsMember(s, family, part, b.name) && MajorOf(family, b.name) == Some(b.major) &&
                         HasHandshake(s, b.name) == b.measured)
    && (b.name == "" ==> b.major == -1 && !b.measured)
    && (!b.measured ==> b.major >= -1)
    && (b.name != "" && !b.measured ==> b.major >= 0)
    && (forall n :: IsMember(s, family, part, n) && HasHandshake(s, n) ==>
          b.measured && MajorOf(family, n).value <= b.major)
    && (!b.measured ==> forall n :: IsMember(s, family, part, n) ==> MajorOf(family, n).value <= b.major)
  }

  lemma BetterIsBest(s: Sources, family: string, front: seq<string>, name: string, b: Best)
    requires IsBest(s, family, front, b) && MajorOf(family, name).Some? && name != ""
    ensures IsBest(s, family, front + [name], Better(b, name, MajorOf(family, name).value, HasHandshake(s, name)))
  {
    hide MajorOf, HasHandshake;
    assert forall n :: IsMember(s, family, front + [name], n) <==> IsMember(s, family, front, n) || n == name;
  }

  lemma {:induction false} NewestIsBest(s: Sources, family: string, part: seq<string>)
    requires forall n <- part :: n in s.names
    ensures IsBest(s, family, part, Newest(s, family, part))
  {
    hide MajorOf, HasHandshake, IsBest;
    if part == [] {
      NobodyIsBest(s, family);
    } else {
      var front, name := part[..|part| - 1], part[|part| - 1];
      assert part == front + [name];
      NewestIsBest(s, family, front);
      if MajorOf(family, name).Some? {
        MembersAreLonger(s, family, name);
        BetterIsBest(s, family, front, name, Newest(s, family, front));
      } else {
        NoMember(s, family, front, name, Newest(s, family, front));
      }
    }
  }

  lemma NobodyIsBest(s: Sources, family: string)
    ensures IsBest(s, family, [], NOBODY)
  {
    hide MajorOf, HasHandshake;
  }

  lemma NoMember(s: Sources, family: string, front: seq<string>, name: string, b: Best)
    requires IsBest(s, family, front, b) && MajorOf(family, name).None?
    ensures IsBest(s, family, front + [name], b)
  {
    hide MajorOf, HasHandshake;
    assert forall n :: IsMember(s, family, front + [name], n) <==> IsMember(s, family, front, n);
  }

  /** A family name that is nothing else resolves to its best member: a measured one if there is any, and of
      those the highest version; otherwise the highest version not below zero; and to nothing exactly when
      there is neither. */
  lemma FamilyMeansItsBest(s: Sources, family: string)
    requires Resolved(s, family).None?
    ensures var best := Newest(s, family, s.names).name;
            && (best == "" <==> forall n :: IsMember(s, family, s.names, n) ==>
                  !HasHandshake(s, n) && MajorOf(family, n).value < 0)
            && (best == "" ==> Get(s, family) == Err(UnknownProfile))
            && (best != "" ==>
                  && IsMember(s, family, s.names, best)
                  && Get(s, family) == Get(s, best)
                  && (forall n :: IsMember(s, family, s.names, n) && HasHandshake(s, n) ==>
                        HasHandshake(s, best) && MajorOf(family, n).value <= MajorOf(family, best).value)
                  && (!HasHandshake(s, best) ==> forall n :: IsMember(s, family, s.names, n) ==>
                        MajorOf(family, n).value <= MajorOf(family, best).value))
  {
    NewestIsBest(s, family, s.names);
    hide MajorOf, HasHandshake, Resolved;
    var b := Newest(s, family, s.names);
    if b.name != "" && !b.measured {
      assert IsMember(s, family, s.names, b.name);
    }
  }

  /** So a family with one measured member resolves to a measured profile. */
  lemma MeasuredFamiliesStayMeasured(s: Sources, family: string, n: string)
    requires Resolved(s, family).None? && IsMember(s, family, s.names, n) && HasHandshake(s, n)
    ensures HasHandshake(s, family)
  {
    FamilyMeansItsBest(s, family);
    hide MajorOf, Resolved, Newest, IsMember;
  }

  // ---------------------------------------------------------------------------------------------
  // Which source a name is looked up in, and what a member is called.

  /** A file: its last five characters are `.json`, in any case, or there is a slash in it. */
  predicate MeansAFile(name: string) {
    || '/' in name
    || (|name| >= 5 && var n := |name| - 5;
        name[n] == '.' && LowerChar(name[n + 1]) == 'j' && LowerChar(name[n + 2]) == 's' &&
        LowerChar(name[n + 3]) == 'o' && LowerChar(name[n + 4]) == 'n')
  }

  lemma DotIsDot(c: char)
    ensures LowerChar(c) == '.' <==> c == '.'
  {
  }

  lemma PathsAreFiles(name: string)
    ensures LooksLikePath(name) <==> MeansAFile(name)
  {
    hide LowerChar;
    var json := ".json";
    assert |json| == 5 && json[0] == '.' && json[1] == 'j' && json[2] == 's' && json[3] == 'o' && json[4] == 'n';
    if |name| >= 5 {
      var n := |name| - 5;
      DotIsDot(name[n]);
      var low := Lower(name)[n..];
      assert forall i :: 0 <= i < 5 ==> low[i] == LowerChar(name[n + i]);
      if low[0] == '.' && low[1] == 'j' && low[2] == 's' && low[3] == 'o' && low[4] == 'n' {
        assert low == json;
      }
    }
  }

  /** A name is looked up among what was registered; then, if it means a file, it is that file and nothing else;
      then in the directory, before the embedded profiles, before the catalogue, of which it is a bare reference. */
  lemma WhereANameIsFound(s: Sources, name: string)
    ensures name == "" ==> Get(s, name) == Err(NoName)
    ensures name != "" && name in s.added ==> Get(s, name) == Ok(s.added[name])
    ensures name != "" && name !in s.added ==>
              && (MeansAFile(name) && name in s.files ==> Get(s, name) == s.files[name])
              && (MeansAFile(name) && name !in s.files ==> Get(s, name) == Err(NoSuchFile))
              && (!MeansAFile(name) && name in s.directory ==> Get(s, name) == s.directory[name])
              && (!MeansAFile(name) && name !in s.directory && name in s.embedded ==>
                    Get(s, name) == s.embedded[name])
              && (!MeansAFile(name) && name !in s.directory && name !in s.embedded && name in s.catalogue ==>
                    Get(s, name) == Ok(Profile(name, name, [])))
              && (!MeansAFile(name) && name !in s.directory && name !in s.embedded && name !in s.catalogue ==>
                    Resolved(s, name) == None)
  {
    PathsAreFiles(name);
    hide LooksLikePath, MeansAFile, Newest;
  }

  /** A member is its family, an underscore and a version number; no other ending makes one. */
  lemma WhoIsAMember(family: string, digits: string, name: string)
    requires digits != "" && forall c <- digits :: '0' <= c <= '9'
    ensures name == family + (['_'] + digits) && NumberOf(digits) <= 9223372036854775807 ==>
              MajorOf(family, name) == Some(NumberOf(digits))
    ensures |name| <= |family| || name[..|family|] != family || name[|family|] != '_' ==> MajorOf(family, name) == None
  {
    hide ParseInt, NumberOf;
    IntegersRead(digits);
    if name == family + (['_'] + digits) {
      assert name[..|family| + 1] == family + "_";
      assert name[|family| + 1..] == digits;
    }
    if family + "_" <= name {
      assert (family + "_")[|family|] == '_' && (family + "_")[..|family|] == family;
    }
  }

  /** An ending that is no number makes no member. */
  lemma WhoIsNoMember(family: string, ending: string, i: nat)
    requires i < |ending| && !('0' <= ending[i] <= '9') && (i > 0 || ending[i] !in {'+', '-'})
    ensures MajorOf(family, family + (['_'] + ending)) == None
  {
    hide ParseInt;
    NotAnInteger(ending, i);
    var name := family + (['_'] + ending);
    if family + "_" <= name {
      assert name[|family| + 1..] == ending;
    }
  }

  /** The profile of a measured name carries a handshake. */
  lemma WhoIsMeasured(s: Sources, name: string)
    ensures HasHandshake(s, name) <==> Get(s, name).Ok? && Get(s, name).value.clientHello != []
  {
  }
}
