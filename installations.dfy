/** The parts of `generateToken` that work on names: the repository name
    taken from the `repository` claim, and the choice of the application
    installation whose account login matches the claimed owner. */
module Installations {
  import opened Base
  import opened JsString

  /** An installation as listed by the platform: its id and `account.login`. */
  datatype Installation = Installation(id: int, login: string)

  /** `repository.includes('/') ? repository.split('/')[1] : repository`. */
  function RepoName(repository: string): (name: string)
    ensures '/' !in repository ==> name == repository
  {
    if '/' in repository then Split(repository, '/')[1] else repository
  }

  /** With a slash, the name is the segment after the first `/` and before
      the second one, and it holds no slash itself. */
  lemma RepoNameSegment(repository: string) returns (i: nat, j: nat)
    requires '/' in repository
    ensures i < j <= |repository| && repository[i] == '/'
    ensures forall k :: 0 <= k < i ==> repository[k] != '/'
    ensures forall k :: i < k < j ==> repository[k] != '/'
    ensures j < |repository| ==> repository[j] == '/'
    ensures RepoName(repository) == repository[i + 1..j] && '/' !in RepoName(repository)
  {
    i, j := SplitSecond(repository, '/');
  }

  /** For an `owner/name` pair of slash-free parts, the name is recovered. */
  lemma RepoNameOfQualified(owner: string, name: string)
    requires '/' !in owner && '/' !in name
    ensures RepoName(owner + "/" + name) == name
  {
    JsString.SplitJoin([owner, name], '/');
    assert Join([owner, name], '/') == owner + "/" + name;
    var s := owner + "/" + name;
    assert s[|owner|] == '/';
  }

  /** A trailing part after a second slash is not part of the name. */
  lemma RepoNameIgnoresExtraSegments(owner: string, name: string, extra: string)
    requires '/' !in owner && '/' !in name
    ensures RepoName(owner + "/" + name + "/" + extra) == name
  {
    var s := owner + "/" + name + "/" + extra;
    assert s[|owner|] == '/';
    var i, j := RepoNameSegment(s);
    assert forall k :: 0 <= k < |owner| ==> s[k] == owner[k];
    assert i == |owner|;
    assert s[|owner| + 1 + |name|] == '/';
    assert forall k :: |owner| < k < |owner| + 1 + |name| ==> s[k] == name[k - |owner| - 1];
    assert j == |owner| + 1 + |name|;
    assert s[i + 1..j] == name;
  }

  /** `inst.account.login.toLowerCase() === owner.toLowerCase()`. */
  predicate LoginMatches(inst: Installation, owner: string)
  {
    ToLower(inst.login) == ToLower(owner)
  }

  /** The index of the first matching installation, `|installations|` when none matches. */
  function FirstMatch(installations: seq<Installation>, owner: string): (k: nat)
    ensures k <= |installations|
    ensures k < |installations| ==> LoginMatches(installations[k], owner)
    ensures forall j :: 0 <= j < k ==> !LoginMatches(installations[j], owner)
    decreases |installations|
  {
    if |installations| == 0 || LoginMatches(installations[0], owner) then 0
    else 1 + FirstMatch(installations[1..], owner)
  }

  /** `installations.find(...)`: the first installation whose login equals
      the owner up to ASCII case, or `None` when there is none. */
  function FindInstallation(installations: seq<Installation>, owner: string): (r: Option<Installation>)
    ensures r.None? <==> forall j :: 0 <= j < |installations| ==> !LoginMatches(installations[j], owner)
    ensures r.Some? ==> exists k :: 0 <= k < |installations| && installations[k] == r.value
                           && forall j :: 0 <= j < k ==> !LoginMatches(installations[j], owner)
    ensures r.Some? ==> LoginMatches(r.value, owner)
  {
    var k := FirstMatch(installations, owner);
    if k < |installations| then Some(installations[k]) else None
  }

  /** Owners that agree once lower-cased resolve to the same installation. */
  lemma {:induction false} ResolutionIgnoresCase(installations: seq<Installation>, owner1: string, owner2: string)
    requires ToLower(owner1) == ToLower(owner2)
    ensures FirstMatch(installations, owner1) == FirstMatch(installations, owner2)
    ensures FindInstallation(installations, owner1) == FindInstallation(installations, owner2)
    decreases |installations|
  {
    if |installations| > 0 {
      ResolutionIgnoresCase(installations[1..], owner1, owner2);
    }
  }

  /** Installation 42 of account `Acme` resolves for `acme` and for `ACME` alike. */
  lemma AcmeResolvesInAnyCase()
    ensures FindInstallation([Installation(42, "Acme")], "acme") == Some(Installation(42, "Acme"))
    ensures FindInstallation([Installation(42, "Acme")], "ACME") == Some(Installation(42, "Acme"))
  {
    assert ToLower("Acme") == "acme";
    assert ToLower("acme") == "acme";
    assert ToLower("ACME") == "acme";
  }

  /** The repository claim `acme/widgets` names repository `widgets`. */
  lemma AcmeWidgetsRepoName()
    ensures RepoName("acme/widgets") == "widgets"
  {
    RepoNameOfQualified("acme", "widgets");
    assert "acme" + "/" + "widgets" == "acme/widgets";
  }
}
