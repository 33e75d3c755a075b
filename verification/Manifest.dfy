/**
 Filling the placeholders `#{NAME}` of agent manifests. The program replaces one placeholder after the
 other in the text; a template sees the text as literal parts and holes, all filled at once.
 */
module Manifest {
  import opened Prelude
  import opened Text

  type Entry = (string, string)

  function HoleText(name: string): string {
    "#{" + name + "}"
  }

  /** Free of the characters placeholders are made of. */
  predicate Clean(s: string) {
    '#' !in s && '{' !in s && '}' !in s
  }

  // ----- the program --------------------------------------------------------------------------

  /** The chain of replacements, in the order of the table. */
  function ReplacedInTurn(content: string, table: seq<Entry>): string
    decreases |table|
  {
    if table == [] then content
    else ReplacedInTurn(ReplaceAll(content, HoleText(table[0].0), table[0].1), table[1..])
  }

  lemma {:induction false} ReplacedOneMore(content: string, table: seq<Entry>, e: Entry)
    ensures ReplacedInTurn(content, table + [e]) == ReplaceAll(ReplacedInTurn(content, table), HoleText(e.0), e.1)
    decreases |table|
  {
    if table == [] {
      assert ReplacedInTurn(content, [e])
             == ReplacedInTurn(ReplaceAll(content, HoleText(e.0), e.1), [e][1..]);
    } else {
      ReplacedOneMore(ReplaceAll(content, HoleText(table[0].0), table[0].1), table[1..], e);
      assert (table + [e])[1..] == table[1..] + [e];
    }
  }

  method Substitute(content: string, table: seq<Entry>) returns (newContent: string)
    ensures newContent == ReplacedInTurn(content, table)
  {
    newContent := content;
    var i := 0;
    while i < |table|
      invariant 0 <= i <= |table|
      invariant newContent == ReplacedInTurn(content, table[..i])
    {
      ReplacedOneMore(content, table[..i], table[i]);
      assert table[..i + 1] == table[..i] + [table[i]];
      newContent := ReplaceAll(newContent, HoleText(table[i].0), table[i].1);
      i := i + 1;
    }
    assert table[..i] == table;
  }

  // ----- templates ----------------------------------------------------------------------------

  datatype Segment = Literal(text: string) | Hole(name: string)

  function Shown(s: Segment): string {
    if s.Literal? then s.text else HoleText(s.name)
  }

  function Render(template: seq<Segment>): string {
    if template == [] then "" else Shown(template[0]) + Render(template[1..])
  }

  /** No "#{" in it. */
  ghost predicate NoMark(s: string) {
    forall i :: 0 <= i < |s| - 1 ==> !(s[i] == '#' && s[i + 1] == '{')
  }

  predicate EndsOpen(s: string) {
    s != "" && Last(s) == '#'
  }

  /** Literal parts contain no "#{" and, unless they are last, do not end in '#'; names are clean. */
  ghost predicate WellFormed(template: seq<Segment>) {
    template == []
    || (&& WellFormed(template[1..])
        && (template[0].Hole? ==> Clean(template[0].name))
        && (template[0].Literal? ==> NoMark(template[0].text)
                                     && (template[1..] != [] ==> !EndsOpen(template[0].text))))
  }

  function FilledSegment(s: Segment, values: map<string, string>): Segment {
    if s.Hole? && s.name in values then Literal(values[s.name]) else s
  }

  /** The template with the holes named in the table filled, all at once. */
  function Filled(template: seq<Segment>, values: map<string, string>): (r: seq<Segment>)
    ensures |r| == |template|
  {
    seq(|template|, i requires 0 <= i < |template| => FilledSegment(template[i], values))
  }

  lemma {:induction false} CopyText(t: string, rest: string, name: string, value: string)
    requires NoMark(t) && (EndsOpen(t) ==> rest == "")
    ensures ReplaceAll(t + rest, HoleText(name), value) == t + ReplaceAll(rest, HoleText(name), value)
  {
    if t == "" {
      assert t + rest == rest;
    } else {
      var s := t + rest;
      assert s[1..] == t[1..] + rest;
      assert |s| >= 2 && t[0] == '#' ==> s[1] != '{';
      NoHoleHere(s, name);
      assert EndsOpen(t[1..]) ==> EndsOpen(t);
      CopyText(t[1..], rest, name, value);
      CopyFirst(s, HoleText(name), value);
      assert t == [t[0]] + t[1..];
    }
  }

  lemma NoHoleHere(s: string, name: string)
    requires |s| >= 2 && s[0] == '#' ==> s[1] != '{'
    ensures !(HoleText(name) <= s)
  {
    assert HoleText(name)[0] == '#' && HoleText(name)[1] == '{';
  }

  lemma CopyFirst(s: string, pattern: string, subst: string)
    requires s != "" && pattern != "" && !(pattern <= s)
    ensures ReplaceAll(s, pattern, subst) == [s[0]] + ReplaceAll(s[1..], pattern, subst)
  {
  }

  /** Two placeholders that start alike are the same. */
  lemma HolesAreUnique(m: string, n: string, rest: string)
    requires Clean(m) && Clean(n) && HoleText(n) <= HoleText(m) + rest
    ensures m == n
  {
    var s := HoleText(m) + rest;
    assert forall i :: 0 <= i < |m| ==> s[i + 2] == m[i] && m[i] in m;
    assert s[|m| + 2] == '}';
    assert forall i :: 0 <= i < |n| ==> s[i + 2] == HoleText(n)[i + 2] == n[i] && n[i] in n;
    assert s[|n| + 2] == HoleText(n)[|n| + 2] == '}';
    assert |m| == |n|;
    assert m == s[2..|m| + 2] && n == s[2..|n| + 2];
  }

  lemma CopyHole(m: string, rest: string, name: string, value: string)
    requires Clean(m) && Clean(name)
    ensures ReplaceAll(HoleText(m) + rest, HoleText(name), value)
            == (if m == name then value else HoleText(m)) + ReplaceAll(rest, HoleText(name), value)
  {
    var s := HoleText(m) + rest;
    if m == name {
      assert s[|HoleText(name)|..] == rest;
    } else {
      if HoleText(name) <= s {
        HolesAreUnique(m, name, rest);
      }
      var body := "{" + m + "}";
      assert s[1..] == body + rest && s[0] == '#';
      assert '#' !in body;
      assert Last(body) == '}';
      CopyText(body, rest, name, value);
      assert HoleText(m) == ['#'] + body;
    }
  }

  /** Replacing one placeholder in the text fills its holes in the template. */
  lemma {:induction false} ReplacingFills(template: seq<Segment>, name: string, value: string)
    requires WellFormed(template) && Clean(name)
    ensures ReplaceAll(Render(template), HoleText(name), value) == Render(Filled(template, map[name := value]))
  {
    if template != [] {
      ReplacingFills(template[1..], name, value);
      FillingFirst(template, map[name := value]);
      ReplacingFirst(template[0], Render(template[1..]), name, value);
    }
  }

  /** Filling goes segment by segment. */
  lemma FillingFirst(template: seq<Segment>, values: map<string, string>)
    requires template != []
    ensures Render(Filled(template, values))
            == Shown(FilledSegment(template[0], values)) + Render(Filled(template[1..], values))
  {
    assert Filled(template, values)[1..] == Filled(template[1..], values);
  }

  /** So does replacing, for a segment that does not run into the next one. */
  lemma ReplacingFirst(first: Segment, rest: string, name: string, value: string)
    requires Clean(name) && (first.Hole? ==> Clean(first.name))
    requires first.Literal? ==> NoMark(first.text) && (EndsOpen(first.text) ==> rest == "")
    ensures ReplaceAll(Shown(first) + rest, HoleText(name), value)
            == Shown(FilledSegment(first, map[name := value])) + ReplaceAll(rest, HoleText(name), value)
  {
    if first.Literal? {
      CopyText(first.text, rest, name, value);
    } else {
      CopyHole(first.name, rest, name, value);
    }
  }

  lemma CleanTextHasNoMark(s: string)
    requires Clean(s)
    ensures NoMark(s) && !EndsOpen(s)
  {
    assert forall i :: 0 <= i < |s| ==> s[i] in s;
  }

  lemma {:induction false} FillingKeepsWellFormed(template: seq<Segment>, values: map<string, string>)
    requires WellFormed(template) && forall n :: n in values ==> Clean(values[n])
    ensures WellFormed(Filled(template, values))
  {
    if template != [] {
      FillingKeepsWellFormed(template[1..], values);
      assert Filled(template, values)[1..] == Filled(template[1..], values);
      if template[0].Hole? && template[0].name in values {
        CleanTextHasNoMark(values[template[0].name]);
      }
    }
  }

  // ----- the chain is a simultaneous substitution -----------------------------------------------

  /** The table as a map; were a name listed twice, its first value would count. */
  function MapOf(table: seq<Entry>): map<string, string> {
    if table == [] then map[] else MapOf(table[1..])[table[0].0 := table[0].1]
  }

  ghost predicate CleanTable(table: seq<Entry>) {
    forall e :: e in table ==> Clean(e.0) && Clean(e.1)
  }

  lemma {:induction false} MapOfMeans(table: seq<Entry>)
    ensures forall n :: n in MapOf(table) ==> (n, MapOf(table)[n]) in table
    ensures forall e :: e in table ==> e.0 in MapOf(table)
  {
    if table != [] {
      MapOfMeans(table[1..]);
      assert table == [table[0]] + table[1..];
    }
  }

  /** Replacing placeholder by placeholder fills all holes of the template at once. */
  lemma {:induction false} ChainIsSimultaneous(template: seq<Segment>, table: seq<Entry>)
    requires WellFormed(template) && CleanTable(table)
    ensures ReplacedInTurn(Render(template), table) == Render(Filled(template, MapOf(table)))
    decreases |table|
  {
    if table == [] {
      assert Filled(template, map[]) == template;
    } else {
      var (name, value) := table[0];
      var first, rest := map[name := value], MapOf(table[1..]);
      assert table[0] in table;
      ReplacingFills(template, name, value);
      FillingKeepsWellFormed(template, first);
      assert CleanTable(table[1..]);
      ChainIsSimultaneous(Filled(template, first), table[1..]);
      assert Filled(Filled(template, first), rest) == Filled(template, MapOf(table));
    }
  }

  ghost predicate DistinctNames(table: seq<Entry>) {
    forall i, j :: 0 <= i < j < |table| ==> table[i].0 != table[j].0
  }

  lemma EntriesDetermineTheMap(table: seq<Entry>, e: Entry)
    requires DistinctNames(table) && e in table
    ensures e.0 in MapOf(table) && MapOf(table)[e.0] == e.1
  {
    MapOfMeans(table);
    var i :| 0 <= i < |table| && table[i] == e;
    var j :| 0 <= j < |table| && table[j] == (e.0, MapOf(table)[e.0]);
    assert i == j;
  }

  /** The order of the replacements makes no difference. */
  lemma OrderIsIrrelevant(template: seq<Segment>, a: seq<Entry>, b: seq<Entry>)
    requires WellFormed(template) && CleanTable(a) && DistinctNames(a) && DistinctNames(b)
    requires multiset(a) == multiset(b)
    ensures ReplacedInTurn(Render(template), a) == ReplacedInTurn(Render(template), b)
  {
    assert forall e :: e in a <==> e in multiset(a);
    assert forall e :: e in b <==> e in multiset(b);
    MapOfMeans(a);
    MapOfMeans(b);
    forall n | n in MapOf(a)
      ensures n in MapOf(b) && MapOf(b)[n] == MapOf(a)[n]
    {
      EntriesDetermineTheMap(b, (n, MapOf(a)[n]));
    }
    forall n | n in MapOf(b)
      ensures n in MapOf(a)
    {
      assert (n, MapOf(b)[n]) in a;
    }
    assert MapOf(a) == MapOf(b);
    ChainIsSimultaneous(template, a);
    ChainIsSimultaneous(template, b);
  }

  // ----- nothing is left ------------------------------------------------------------------------

  lemma {:induction false} ReplacingNeverShortens(s: string, pattern: string, subst: string)
    requires pattern != "" && |subst| > |pattern|
    ensures |ReplaceAll(s, pattern, subst)| >= |s|
    ensures Contains(s, pattern) ==> |ReplaceAll(s, pattern, subst)| > |s|
    decreases |s|
  {
    if s != "" {
      if pattern <= s {
        ReplacingNeverShortens(s[|pattern|..], pattern, subst);
      } else {
        ReplacingNeverShortens(s[1..], pattern, subst);
        if Contains(s, pattern) {
          var i :| 0 <= i <= |s| && pattern <= s[i..];
          assert i > 0 && s[i..] == s[1..][i - 1..];
          assert Contains(s[1..], pattern);
        }
      }
    }
  }

  /** None of the replaced placeholders is left in the result. */
  lemma NoPlaceholderIsLeft(template: seq<Segment>, table: seq<Entry>, e: Entry)
    requires WellFormed(template) && CleanTable(table) && e in table
    ensures !Contains(ReplacedInTurn(Render(template), table), HoleText(e.0))
  {
    ChainIsSimultaneous(template, table);
    MapOfMeans(table);
    var filled := Filled(template, MapOf(table));
    forall n | n in MapOf(table)
      ensures Clean(MapOf(table)[n])
    {
      assert (n, MapOf(table)[n]) in table;
    }
    FillingKeepsWellFormed(template, MapOf(table));
    var longer := HoleText(e.0) + " ";
    ReplacingFills(filled, e.0, longer);
    assert Filled(filled, map[e.0 := longer]) == filled;
    ReplacingNeverShortens(Render(filled), HoleText(e.0), longer);
  }

  // ----- the placeholders of the agent manifests ------------------------------------------------

  datatype Agent = Agent(
    tolerations: string, clusterID: string, accessKey: string, agentNamespace: string,
    serviceAccount: string, agentScope: string, skipSSL: bool, startTime: string,
    isClusterConfirmed: bool, nodeSelector: Option<string>)

  datatype Configuration = Configuration(
    gqlServerURI: string, subscriberImage: string, eventTrackerImage: string,
    workflowControllerImage: string, chaosOperatorImage: string, workflowExecutorImage: string,
    chaosRunnerImage: string, chaosExporterImage: string, containerRuntimeExecutor: string,
    agentDeployments: string, version: string, tlsCert: string)

  const NAMES := ["tolerations", "CLUSTER_ID", "ACCESS_KEY", "SERVER_ADDR", "SUBSCRIBER-IMAGE",
                  "EVENT-TRACKER-IMAGE", "AGENT-NAMESPACE", "SUBSCRIBER-SERVICE-ACCOUNT", "AGENT-SCOPE",
                  "ARGO-WORKFLOW-CONTROLLER", "LITMUS-CHAOS-OPERATOR", "ARGO-WORKFLOW-EXECUTOR",
                  "LITMUS-CHAOS-RUNNER", "LITMUS-CHAOS-EXPORTER", "ARGO-CONTAINER-RUNTIME-EXECUTOR",
                  "AGENT-DEPLOYMENTS", "VERSION", "SKIP_SSL_VERIFY", "CUSTOM_TLS_CERT", "START_TIME",
                  "IS_CLUSTER_CONFIRMED", "nodeselector"]

  function Values(a: Agent, c: Configuration): (r: seq<string>)
    ensures |r| == 21 + if a.nodeSelector.Some? then 1 else 0
  {
    [a.tolerations, a.clusterID, a.accessKey, c.gqlServerURI, c.subscriberImage,
     c.eventTrackerImage, a.agentNamespace, a.serviceAccount, a.agentScope,
     c.workflowControllerImage, c.chaosOperatorImage, c.workflowExecutorImage,
     c.chaosRunnerImage, c.chaosExporterImage, c.containerRuntimeExecutor,
     c.agentDeployments, c.version, if a.skipSSL then "true" else "false", c.tlsCert, "\"" + a.startTime + "\"",
     if a.isClusterConfirmed then "\"true\"" else "\"false\""]
    + if a.nodeSelector.Some? then [a.nodeSelector.value] else []
  }

  /** The table the program goes through; the node selector's placeholder stays when there is no selector. */
  function Placeholders(a: Agent, c: Configuration): (r: seq<Entry>)
    ensures |r| == |Values(a, c)|
    ensures forall i :: 0 <= i < |r| ==> r[i] == (NAMES[i], Values(a, c)[i])
  {
    var values := Values(a, c);
    seq(|values|, i requires 0 <= i < |values| => (NAMES[i], values[i]))
  }

  /** The place of a placeholder in the list. */
  function Slot(name: string): nat {
    match name
    case "tolerations" => 0
    case "CLUSTER_ID" => 1
    case "ACCESS_KEY" => 2
    case "SERVER_ADDR" => 3
    case "SUBSCRIBER-IMAGE" => 4
    case "EVENT-TRACKER-IMAGE" => 5
    case "AGENT-NAMESPACE" => 6
    case "SUBSCRIBER-SERVICE-ACCOUNT" => 7
    case "AGENT-SCOPE" => 8
    case "ARGO-WORKFLOW-CONTROLLER" => 9
    case "LITMUS-CHAOS-OPERATOR" => 10
    case "ARGO-WORKFLOW-EXECUTOR" => 11
    case "LITMUS-CHAOS-RUNNER" => 12
    case "LITMUS-CHAOS-EXPORTER" => 13
    case "ARGO-CONTAINER-RUNTIME-EXECUTOR" => 14
    case "AGENT-DEPLOYMENTS" => 15
    case "VERSION" => 16
    case "SKIP_SSL_VERIFY" => 17
    case "CUSTOM_TLS_CERT" => 18
    case "START_TIME" => 19
    case "IS_CLUSTER_CONFIRMED" => 20
    case "nodeselector" => 21
    case _ => |NAMES|
  }

  lemma SlotsOfNames(i: nat)
    requires i < |NAMES|
    ensures Slot(NAMES[i]) == i
  {
  }

  /** Letters, digits, hyphens and underscores only. */
  predicate Word(s: string) {
    forall i :: 0 <= i < |s| ==>
      'A' <= s[i] <= 'Z' || 'a' <= s[i] <= 'z' || '0' <= s[i] <= '9' || s[i] == '-' || s[i] == '_'
  }

  lemma WordsAreClean(s: string)
    requires Word(s)
    ensures Clean(s)
  {
  }

  lemma AgentWords()
    ensures Word("tolerations")
    ensures Word("CLUSTER_ID")
    ensures Word("ACCESS_KEY")
    ensures Word("SERVER_ADDR")
    ensures Word("SUBSCRIBER-IMAGE")
    ensures Word("EVENT-TRACKER-IMAGE")
  {
  }

  lemma ComponentWords()
    ensures Word("AGENT-NAMESPACE")
    ensures Word("SUBSCRIBER-SERVICE-ACCOUNT")
    ensures Word("AGENT-SCOPE")
  {
  }

  lemma OperatorWords()
    ensures Word("ARGO-WORKFLOW-CONTROLLER")
    ensures Word("LITMUS-CHAOS-OPERATOR")
    ensures Word("ARGO-WORKFLOW-EXECUTOR")
  {
  }

  lemma ImageWords()
    ensures Word("LITMUS-CHAOS-RUNNER")
    ensures Word("LITMUS-CHAOS-EXPORTER")
    ensures Word("ARGO-CONTAINER-RUNTIME-EXECUTOR")
  {
  }

  lemma VersionWords()
    ensures Word("AGENT-DEPLOYMENTS")
    ensures Word("VERSION")
    ensures Word("SKIP_SSL_VERIFY")
  {
  }

  lemma SettingWords()
    ensures Word("CUSTOM_TLS_CERT")
    ensures Word("START_TIME")
    ensures Word("IS_CLUSTER_CONFIRMED")
    ensures Word("nodeselector")
  {
  }

  lemma NamesAreClean(i: nat)
    requires i < |NAMES|
    ensures Clean(NAMES[i])
  {
    AgentWords();
    ComponentWords();
    OperatorWords();
    ImageWords();
    VersionWords();
    SettingWords();
    WordsAreClean(NAMES[i]);
  }

  /**
   With clean settings, filling a manifest is one simultaneous substitution of its placeholders, in any order,
   and leaves none of them behind.
   */
  lemma ManifestIsFilledAtOnce(template: seq<Segment>, a: Agent, c: Configuration)
    requires WellFormed(template)
    requires forall v :: v in Values(a, c) ==> Clean(v)
    ensures ReplacedInTurn(Render(template), Placeholders(a, c)) == Render(Filled(template, MapOf(Placeholders(a, c))))
    ensures forall table :: multiset(table) == multiset(Placeholders(a, c)) && DistinctNames(table) ==>
              ReplacedInTurn(Render(template), table) == ReplacedInTurn(Render(template), Placeholders(a, c))
    ensures forall e :: e in Placeholders(a, c) ==>
              !Contains(ReplacedInTurn(Render(template), Placeholders(a, c)), HoleText(e.0))
    ensures DistinctNames(Placeholders(a, c))
  {
    var table := Placeholders(a, c);
    PlaceholdersAreClean(a, c);
    ChainIsSimultaneous(template, table);
    forall other | multiset(other) == multiset(table) && DistinctNames(other)
      ensures ReplacedInTurn(Render(template), other) == ReplacedInTurn(Render(template), table)
    {
      OrderIsIrrelevant(template, table, other);
    }
    forall e | e in table
      ensures !Contains(ReplacedInTurn(Render(template), table), HoleText(e.0))
    {
      NoPlaceholderIsLeft(template, table, e);
    }
  }

  lemma PlaceholdersAreClean(a: Agent, c: Configuration)
    requires forall v :: v in Values(a, c) ==> Clean(v)
    ensures CleanTable(Placeholders(a, c)) && DistinctNames(Placeholders(a, c))
  {
    var table := Placeholders(a, c);
    forall i, j | 0 <= i < j < |table|
      ensures table[i].0 != table[j].0
    {
      SlotsOfNames(i);
      SlotsOfNames(j);
    }
    forall e | e in table
      ensures Clean(e.0) && Clean(e.1)
    {
      var i :| 0 <= i < |table| && table[i] == e;
      NamesAreClean(i);
      assert Values(a, c)[i] in Values(a, c);
    }
  }

  // ----- which setting goes where -------------------------------------------------------------

  /** The setting a placeholder stands for. */
  function SettingFor(name: string, a: Agent, c: Configuration): Option<string> {
    match name
    case "tolerations" => Some(a.tolerations)
    case "CLUSTER_ID" => Some(a.clusterID)
    case "ACCESS_KEY" => Some(a.accessKey)
    case "SERVER_ADDR" => Some(c.gqlServerURI)
    case "SUBSCRIBER-IMAGE" => Some(c.subscriberImage)
    case "EVENT-TRACKER-IMAGE" => Some(c.eventTrackerImage)
    case "AGENT-NAMESPACE" => Some(a.agentNamespace)
    case "SUBSCRIBER-SERVICE-ACCOUNT" => Some(a.serviceAccount)
    case "AGENT-SCOPE" => Some(a.agentScope)
    case "ARGO-WORKFLOW-CONTROLLER" => Some(c.workflowControllerImage)
    case "LITMUS-CHAOS-OPERATOR" => Some(c.chaosOperatorImage)
    case "ARGO-WORKFLOW-EXECUTOR" => Some(c.workflowExecutorImage)
    case "LITMUS-CHAOS-RUNNER" => Some(c.chaosRunnerImage)
    case "LITMUS-CHAOS-EXPORTER" => Some(c.chaosExporterImage)
    case "ARGO-CONTAINER-RUNTIME-EXECUTOR" => Some(c.containerRuntimeExecutor)
    case "AGENT-DEPLOYMENTS" => Some(c.agentDeployments)
    case "VERSION" => Some(c.version)
    case "SKIP_SSL_VERIFY" => Some(if a.skipSSL then "true" else "false")
    case "CUSTOM_TLS_CERT" => Some(c.tlsCert)
    case "START_TIME" => Some("\"" + a.startTime + "\"")
    case "IS_CLUSTER_CONFIRMED" => Some(if a.isClusterConfirmed then "\"true\"" else "\"false\"")
    case "nodeselector" => a.nodeSelector
    case _ => None
  }

  lemma SettingsInOrder(a: Agent, c: Configuration, i: nat)
    requires i < |Values(a, c)|
    ensures SettingFor(NAMES[i], a, c) == Some(Values(a, c)[i])
  {
    SlotsOfNames(i);
  }

  lemma SettingsHaveSlots(a: Agent, c: Configuration, name: string)
    requires SettingFor(name, a, c).Some?
    ensures Slot(name) < |Values(a, c)| && NAMES[Slot(name)] == name
  {
  }

  /** The text of a template with the settings in place of their placeholders. */
  function TextWith(template: seq<Segment>, setting: string -> Option<string>): string {
    if template == [] then ""
    else
      (match template[0]
       case Literal(text) => text
       case Hole(name) => if setting(name).Some? then setting(name).value else "#{" + name + "}")
      + TextWith(template[1..], setting)
  }

  lemma PlaceholdersAreSettings(a: Agent, c: Configuration, name: string)
    requires DistinctNames(Placeholders(a, c))
    ensures name in MapOf(Placeholders(a, c)) <==> SettingFor(name, a, c).Some?
    ensures name in MapOf(Placeholders(a, c)) ==>
              MapOf(Placeholders(a, c))[name] == SettingFor(name, a, c).value
  {
    var table := Placeholders(a, c);
    MapOfMeans(table);
    if name in MapOf(table) {
      var i :| 0 <= i < |table| && table[i] == (name, MapOf(table)[name]);
      SettingsInOrder(a, c, i);
    }
    if SettingFor(name, a, c).Some? {
      SettingsHaveSlots(a, c, name);
      assert table[Slot(name)] in table;
    }
  }

  lemma {:induction false} FilledIsTextWith(template: seq<Segment>, values: map<string, string>,
                                            setting: string -> Option<string>)
    requires forall n :: n in values <==> setting(n).Some?
    requires forall n :: n in values ==> values[n] == setting(n).value
    ensures Render(Filled(template, values)) == TextWith(template, setting)
  {
    if template != [] {
      FillingFirst(template, values);
      FilledIsTextWith(template[1..], values, setting);
    }
  }

  /** In a filled manifest each placeholder that has a setting is replaced by it, and all else is as it was. */
  lemma EachSettingInItsPlace(template: seq<Segment>, a: Agent, c: Configuration)
    requires WellFormed(template)
    requires forall v :: v in Values(a, c) ==> Clean(v)
    ensures ReplacedInTurn(Render(template), Placeholders(a, c))
            == TextWith(template, (name: string) => SettingFor(name, a, c))
  {
    ManifestIsFilledAtOnce(template, a, c);
    forall name
      ensures name in MapOf(Placeholders(a, c)) <==> SettingFor(name, a, c).Some?
      ensures name in MapOf(Placeholders(a, c)) ==> MapOf(Placeholders(a, c))[name] == SettingFor(name, a, c).value
    {
      PlaceholdersAreSettings(a, c, name);
    }
    FilledIsTextWith(template, MapOf(Placeholders(a, c)), (name: string) => SettingFor(name, a, c));
  }
}
