/**
 * The per-node client of the harness (TestClient in pkg/lib/lib.go) and the
 * decisions its steps take on what the container engine answers. The engine
 * itself is not modelled: each engine call is a parameter, a function from
 * the request the step builds to the engine's answer, so the contracts can
 * say which request each step sends and what it does with the answer.
 */
module Client {
  import opened Results
  import opened GoStrings

  /** The alphabet of generated names: 26 lower-case then 26 upper-case letters. */
  const LetterBytes: string := "abcdefghijklmnopqrstuvwxyzABCDEFGHIJKLMNOPQRSTUVWXYZ"

  /** The number of random letters in a generated volume or container name. */
  const NameLetters: nat := 5

  /** Indexes into LetterBytes, as rand.Intn(len(letterBytes)) yields them. */
  predicate ValidPicks(picks: seq<nat>)
  {
    forall i :: 0 <= i < |picks| ==> picks[i] < |LetterBytes|
  }

  /** The letters chosen by `picks`, one per index: RandString's result. */
  function LettersFor(picks: seq<nat>): (s: string)
    requires ValidPicks(picks)
    ensures |s| == |picks|
    ensures forall i :: 0 <= i < |s| ==> s[i] in LetterBytes
  {
    if picks == [] then []
    else LettersFor(picks[..|picks| - 1]) + [LetterBytes[picks[|picks| - 1]]]
  }

  /** Every string of letters is what some choice of indexes produces. */
  lemma {:induction false} EveryLetterStringReachable(s: string) returns (picks: seq<nat>)
    requires forall i :: 0 <= i < |s| ==> s[i] in LetterBytes
    ensures ValidPicks(picks) && |picks| == |s| && LettersFor(picks) == s
    decreases |s|
  {
    if s == [] {
      picks := [];
    } else {
      var init := s[..|s| - 1];
      var last := s[|s| - 1];
      assert forall i :: 0 <= i < |init| ==> init[i] == s[i];
      var before := EveryLetterStringReachable(init);
      var k := LetterIndex(last);
      LettersForAppend(before, k);
      picks := before + [k];
      assert init + [last] == s;
    }
  }

  /** The position of a letter in the alphabet. */
  lemma LetterIndex(c: char) returns (k: nat)
    requires c in LetterBytes
    ensures k < |LetterBytes| && LetterBytes[k] == c
  {
    k :| k < |LetterBytes| && LetterBytes[k] == c;
  }

  /** One more index adds its letter at the end. */
  lemma LettersForAppend(picks: seq<nat>, k: nat)
    requires ValidPicks(picks) && k < |LetterBytes|
    ensures ValidPicks(picks + [k]) && LettersFor(picks + [k]) == LettersFor(picks) + [LetterBytes[k]]
  {
    assert (picks + [k])[..|picks|] == picks;
  }

  /**
   * RandString: fills a buffer of `n` bytes, each the letter at the next
   * random index.
   */
  method RandString(n: nat, picks: seq<nat>) returns (s: string)
    requires |picks| == n && ValidPicks(picks)
    ensures s == LettersFor(picks)
    ensures forall i :: 0 <= i < n ==> s[i] == LetterBytes[picks[i]]
  {
    var b := new char[n];
    for i := 0 to n
      invariant forall k :: 0 <= k < i ==> b[k] == LetterBytes[picks[k]]
    {
      b[i] := LetterBytes[picks[i]];
    }
    s := b[..];
    LettersForAt(picks);
  }

  /** The `i`-th letter of LettersFor is the letter at the `i`-th index. */
  lemma {:induction false} LettersForAt(picks: seq<nat>)
    requires ValidPicks(picks)
    ensures forall i :: 0 <= i < |picks| ==> LettersFor(picks)[i] == LetterBytes[picks[i]]
    decreases |picks|
  {
    if picks != [] {
      var init := picks[..|picks| - 1];
      LettersForAt(init);
    }
  }

  /** A generated volume or container name: the node, a dash, the letters. */
  function ResourceName(node: string, letters: string): string
  {
    node + "-" + letters
  }

  /**
   * Names generated for two different nodes never collide, since they carry
   * the same number of letters after the node.
   */
  lemma DistinctNodesDistinctNames(node1: string, node2: string, letters1: string, letters2: string)
    requires node1 != node2 && |letters1| == |letters2|
    ensures ResourceName(node1, letters1) != ResourceName(node2, letters2)
  {
    var n1 := ResourceName(node1, letters1);
    var n2 := ResourceName(node2, letters2);
    if |node1| == |node2| {
      assert n1[..|node1|] == node1;
      assert n2[..|node2|] == node2;
    }
  }

  /** The node can be read back from a generated name. */
  lemma NodeOfResourceName(node: string, letters: string)
    requires |letters| == NameLetters
    ensures var name := ResourceName(node, letters);
      |name| == |node| + NameLetters + 1 && name[..|node|] == node && name[|node|] == '-'
  {
    var name := ResourceName(node, letters);
    assert name[..|node|] == node;
  }

  /** What CreateVolume sends to the engine's VolumeCreate. */
  datatype VolumeCreateBody = VolumeCreateBody(driver: string, name: string, driverOpts: map<string, string>)

  /** What CreateContainerWithVolume sends to the engine's ContainerCreate. */
  datatype ContainerCreateRequest = ContainerCreateRequest(
    cmd: seq<string>, binds: seq<string>, volumeDriver: string, name: string)

  /** The mount path of the volume inside the test container. */
  const DataMount: string := ":/data"

  /** The tag that InspectVolume removes once from a reported driver name. */
  const LatestTag: string := ":latest"

  /** strings.Replace(driver, ":latest", "", 1). */
  function StripLatest(driver: string): string
  {
    ReplaceFirst(driver, LatestTag, "")
  }

  /**
   * Only the first ":latest" goes: a name without the tag followed by the
   * tag and anything else loses exactly that one tag.
   */
  lemma StripLatestFirstOnly(name: string, rest: string)
    requires !Contains(name, LatestTag)
    ensures StripLatest(name + LatestTag + rest) == name + rest
  {
    var s := name + LatestTag + rest;
    NoTagBefore(name, rest);
    assert OccursAt(s, LatestTag, |name|) by {
      assert s[|name|..|name| + |LatestTag|] == LatestTag;
    }
    var r := Index(s, LatestTag);
    assert r.value == |name|;
    assert s[..|name|] == name;
    assert s[|name| + |LatestTag|..] == rest;
  }

  /** No ":latest" starts inside a name that does not contain it, whatever follows. */
  lemma NoTagBefore(name: string, rest: string)
    requires !Contains(name, LatestTag)
    ensures forall j: nat :: j < |name| ==> !OccursAt(name + LatestTag + rest, LatestTag, j)
  {
    var s := name + LatestTag + rest;
    forall j: nat | j < |name|
      ensures !OccursAt(s, LatestTag, j)
    {
      if j + |LatestTag| <= |name| {
        assert s[j..j + |LatestTag|] == name[j..j + |LatestTag|];
        assert !OccursAt(name, LatestTag, j);
      } else {
        NoTagAcrossJoin(name, rest, j);
      }
    }
  }

  /** No ":latest" starts inside `name` and runs into the appended tag. */
  lemma NoTagAcrossJoin(name: string, rest: string, j: nat)
    requires j < |name| < j + |LatestTag|
    ensures !OccursAt(name + LatestTag + rest, LatestTag, j)
  {
    var s := name + LatestTag + rest;
    assert s[|name|] == ':';
    assert LatestTag[|name| - j] != ':';
  }

  /**
   * A plugin reference without the tag matches the driver the engine reports
   * whether or not the engine appends ":latest".
   */
  lemma DriverMatchesWithOrWithoutTag(plugin: string)
    requires !Contains(plugin, LatestTag)
    ensures StripLatest(plugin) == plugin
    ensures StripLatest(plugin + LatestTag) == plugin
  {
    StripLatestFirstOnly(plugin, "");
    assert plugin + LatestTag + "" == plugin + LatestTag;
  }

  /**
   * A plugin reference that contains ":latest" never matches when the engine
   * reports exactly that reference as the driver: the comparison sees it with
   * one tag removed, which makes it shorter.
   */
  lemma TaggedPluginMissesItself(plugin: string)
    requires Contains(plugin, LatestTag)
    ensures StripLatest(plugin) != plugin
  {
    var i: nat :| OccursAt(plugin, LatestTag, i) && StripLatest(plugin) == plugin[..i] + "" + plugin[i + |LatestTag|..];
    assert |StripLatest(plugin)| == |plugin| - |LatestTag|;
  }

  /**
   * The index of the last listed name that starts with `prefix`, the one
   * InspectVolume ends up with.
   */
  function LastWithPrefix(names: seq<string>, prefix: string): (r: Option<nat>)
    ensures r.Some? ==> r.value < |names| && prefix <= names[r.value]
    ensures r.Some? ==> forall j :: r.value < j < |names| ==> !(prefix <= names[j])
    ensures r.None? ==> forall j :: 0 <= j < |names| ==> !(prefix <= names[j])
    decreases |names|
  {
    if names == [] then None
    else if prefix <= names[|names| - 1] then Some(|names| - 1)
    else LastWithPrefix(names[..|names| - 1], prefix)
  }

  /** InspectVolume's `found`: the chosen name, or "" when none matches. */
  function FoundName(names: seq<string>, prefix: string): string
  {
    match LastWithPrefix(names, prefix)
    case Some(j) => names[j]
    case None => ""
  }

  /** With no stored name every volume matches, so the last one listed is chosen. */
  lemma EmptyPrefixPicksLast(names: seq<string>)
    requires names != []
    ensures LastWithPrefix(names, "") == Some(|names| - 1)
  {
  }

  /** The error text ConfirmVolume and InspectVolume give for a missing volume. */
  function VolumeNotFound(name: string): string
  {
    "Volume " + name + " not found"
  }

  /** The error text InspectVolume gives for a wrong driver. */
  function DriverMismatch(driver: string, plugin: string): string
  {
    "Driver does not match.  " + driver + " != " + plugin
  }

  /**
   * One node's handle: its identity and plugin settings, fixed at
   * construction, and the names of the volume and container its steps last
   * created.
   */
  class TestClient {
    const Node: string
    const Plugin: string
    const PlugOpts: map<string, string>
    const VolOpts: map<string, string>
    var vol: string
    var con: string

    /**
     * NewTestClient without its side effects: the node is named after its
     * environment file, and no volume or container has been created yet.
     */
    constructor (plugin: string, plugOpts: map<string, string>, volOpts: map<string, string>, nodeFile: string)
      ensures Node == nodeFile && Plugin == plugin && PlugOpts == plugOpts && VolOpts == volOpts
      ensures vol == "" && con == ""
    {
      Node := nodeFile;
      Plugin := plugin;
      PlugOpts := plugOpts;
      VolOpts := volOpts;
      vol := "";
      con := "";
    }

    /**
     * CreateVolume: the generated name is stored before the engine is asked,
     * so it stays even when creation fails; the engine's error is returned.
     */
    method CreateVolume(picks: seq<nat>, volumeCreate: VolumeCreateBody -> Outcome) returns (err: Outcome)
      requires |picks| == NameLetters && ValidPicks(picks)
      modifies this`vol
      ensures vol == ResourceName(Node, LettersFor(picks))
      ensures err == volumeCreate(VolumeCreateBody(Plugin, vol, VolOpts))
    {
      var letters := RandString(NameLetters, picks);
      var volName := Node + "-" + letters;
      vol := volName;
      err := volumeCreate(VolumeCreateBody(Plugin, volName, VolOpts));
    }

    /**
     * ConfirmVolume: asks for the volumes named like the stored one and
     * fails exactly when the engine errs or lists none.
     */
    method ConfirmVolume(volumeList: string -> Result<seq<string>>) returns (err: Outcome)
      ensures volumeList(vol).Err? ==> err == Fail(volumeList(vol).error)
      ensures volumeList(vol).Ok? ==> (err.Fail? <==> volumeList(vol).value == [])
      ensures volumeList(vol).Ok? && err.Fail? ==> err.error == VolumeNotFound(vol)
    {
      var vok := volumeList(vol);
      if vok.Err? {
        return Fail(vok.error);
      }
      if |vok.value| == 0 {
        return Fail(VolumeNotFound(vol));
      }
      return Pass;
    }

    /**
     * InspectVolume: among all listed volumes, take the last whose name
     * starts with the stored name, inspect it, and pass only if its driver
     * with the first ":latest" removed is the plugin.
     */
    method InspectVolume(volumeList: Result<seq<string>>, volumeInspect: string -> Result<string>)
      returns (err: Outcome)
      ensures volumeList.Err? ==> err == Fail(volumeList.error)
      ensures volumeList.Ok? && FoundName(volumeList.value, vol) == "" ==> err == Fail(VolumeNotFound(vol))
      ensures volumeList.Ok? && FoundName(volumeList.value, vol) != "" ==>
        var inspected := volumeInspect(FoundName(volumeList.value, vol));
        && (inspected.Err? ==> err == Fail(inspected.error))
        && (inspected.Ok? ==> (err.Pass? <==> StripLatest(inspected.value) == Plugin))
        && (inspected.Ok? && err.Fail? ==> err.error == DriverMismatch(StripLatest(inspected.value), Plugin))
    {
      if volumeList.Err? {
        return Fail(volumeList.error);
      }
      var names := volumeList.value;
      var found := "";
      for k := 0 to |names|
        invariant found == FoundName(names[..k], vol)
      {
        assert names[..k + 1][..k] == names[..k];
        if vol <= names[k] {
          found := names[k];
        }
      }
      assert names[..|names|] == names;
      if found == "" {
        return Fail(VolumeNotFound(vol));
      }
      var inspected := volumeInspect(found);
      if inspected.Err? {
        return Fail(inspected.error);
      }
      var driver := StripLatest(inspected.value);
      if driver != Plugin {
        return Fail(DriverMismatch(driver, Plugin));
      }
      return Pass;
    }

    /**
     * CreateContainerWithVolume: the generated name is stored first; the
     * container runs /bin/bash with the stored volume bound at /data and the
     * plugin as its volume driver.
     */
    method CreateContainerWithVolume(picks: seq<nat>, containerCreate: ContainerCreateRequest -> Outcome)
      returns (err: Outcome)
      requires |picks| == NameLetters && ValidPicks(picks)
      modifies this`con
      ensures con == ResourceName(Node, LettersFor(picks))
      ensures err == containerCreate(ContainerCreateRequest(["/bin/bash"], [vol + DataMount], Plugin, con))
    {
      var letters := RandString(NameLetters, picks);
      var conName := Node + "-" + letters;
      con := conName;
      err := containerCreate(ContainerCreateRequest(["/bin/bash"], [vol + DataMount], Plugin, conName));
    }

    /**
     * CleanContainers: a failed listing panics; otherwise containers are
     * removed in listed order and the first removal error stops the loop and
     * is returned. `attempted` is the containers the engine was asked to
     * remove.
     */
    method CleanContainers(containerList: Result<seq<string>>, containerRemove: string -> Outcome)
      returns (c: Completion, attempted: seq<string>)
      ensures containerList.Err? ==> c == Panicked(containerList.error) && attempted == []
      ensures containerList.Ok? ==> c.Returned?
      ensures containerList.Ok? && c.Returned? && c.outcome.Pass? ==>
        attempted == containerList.value &&
        forall j :: 0 <= j < |attempted| ==> containerRemove(attempted[j]).Pass?
      ensures containerList.Ok? && c.Returned? && c.outcome.Fail? ==>
        && 0 < |attempted| <= |containerList.value|
        && attempted == containerList.value[..|attempted|]
        && c.outcome == containerRemove(attempted[|attempted| - 1])
        && forall j :: 0 <= j < |attempted| - 1 ==> containerRemove(attempted[j]).Pass?
    {
      if containerList.Err? {
        return Panicked(containerList.error), [];
      }
      var ids := containerList.value;
      attempted := [];
      for k := 0 to |ids|
        invariant attempted == ids[..k]
        invariant forall j :: 0 <= j < k ==> containerRemove(ids[j]).Pass?
      {
        attempted := attempted + [ids[k]];
        var err := containerRemove(ids[k]);
        if err.Fail? {
          return Returned(err), attempted;
        }
      }
      return Returned(Pass), attempted;
    }
  }
}
