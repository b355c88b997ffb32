/** The keyword heuristics of kanban/create_issues.py that tag an issue with the
    business process (infer_dfd) and the user role (infer_role) it concerns.
    Both are ordered first-match rule chains over the lower-cased title and the
    label list. */
module Inference {
  import opened Strings

  /** One keyword rule: it fires when the lower-cased title contains one of
      `titleKeys` or when one of `labelKeys` is a label. */
  datatype Rule = Rule(titleKeys: seq<string>, labelKeys: seq<string>, tag: string)

  predicate Fires(rule: Rule, lowerTitle: string, labels: seq<string>) {
    ContainsAny(lowerTitle, rule.titleKeys) || AnyIn(rule.labelKeys, labels)
  }

  /** Some key occurs in the title. */
  predicate ContainsAny(lowerTitle: string, keys: seq<string>)
    decreases |keys|
  {
    keys != [] && (Contains(lowerTitle, keys[0]) || ContainsAny(lowerTitle, keys[1..]))
  }

  /** Some key is a label. */
  predicate AnyIn(keys: seq<string>, labels: seq<string>)
    decreases |keys|
  {
    keys != [] && (keys[0] in labels || AnyIn(keys[1..], labels))
  }

  /** The tag of the first rule that fires, or `fallback` when none does. */
  function FirstMatch(rules: seq<Rule>, lowerTitle: string, labels: seq<string>, fallback: string): string
    decreases |rules|
  {
    if rules == [] then fallback
    else if Fires(rules[0], lowerTitle, labels) then rules[0].tag
    else FirstMatch(rules[1..], lowerTitle, labels, fallback)
  }

  /** The first rule that fires decides, whatever later rules say. */
  lemma {:induction false} FirstMatchWins(rules: seq<Rule>, lowerTitle: string, labels: seq<string>, fallback: string, i: nat)
    requires i < |rules| && Fires(rules[i], lowerTitle, labels)
    requires forall j :: 0 <= j < i ==> !Fires(rules[j], lowerTitle, labels)
    ensures FirstMatch(rules, lowerTitle, labels, fallback) == rules[i].tag
    decreases i
  {
    if i > 0 {
      assert !Fires(rules[0], lowerTitle, labels);
      FirstMatchWins(rules[1..], lowerTitle, labels, fallback, i - 1);
    }
  }

  /** Evaluating the rules from rule `i` on: rule `i` if it fires, otherwise the rules after it. */
  lemma FirstMatchUnfold(rules: seq<Rule>, lowerTitle: string, labels: seq<string>, fallback: string, i: nat)
    requires i < |rules|
    ensures FirstMatch(rules[i..], lowerTitle, labels, fallback) ==
      if Fires(rules[i], lowerTitle, labels) then rules[i].tag else FirstMatch(rules[i + 1..], lowerTitle, labels, fallback)
  {
    assert rules[i..][0] == rules[i] && rules[i..][1..] == rules[i + 1..];
  }

  /** When no rule fires the fallback is returned. */
  lemma {:induction false} FirstMatchNone(rules: seq<Rule>, lowerTitle: string, labels: seq<string>, fallback: string)
    requires forall j :: 0 <= j < |rules| ==> !Fires(rules[j], lowerTitle, labels)
    ensures FirstMatch(rules, lowerTitle, labels, fallback) == fallback
    decreases |rules|
  {
    if rules != [] {
      assert !Fires(rules[0], lowerTitle, labels);
      FirstMatchNone(rules[1..], lowerTitle, labels, fallback);
    }
  }

  // ---------------------------------------------------------------------------
  // infer_dfd
  // ---------------------------------------------------------------------------

  const DfdP1 := "P1 Crear Solicitud"
  const DfdP2 := "P2 Vendor Confirma Cantidad"
  const DfdP3 := "P3 Admin Aprueba/Rechaza"
  const DfdP4 := "P4 Actualizar Perfil"
  const DfdP5 := "P5 Búsqueda en el sitio"
  const DfdRequests := "P1/P2/P3 (Solicitudes)"
  const NotInDfd := "N/A (fuera del DFD)"

  /** The process rules, in the order infer_dfd tries them. */
  const DfdRules: seq<Rule> := [
    Rule(["p1", "crear solicitud"], [], DfdP1),
    Rule(["p2", "vendor confirma", "confirma cantidad"], [], DfdP2),
    Rule(["p3", "aprueba", "rechaza"], [], DfdP3),
    Rule(["p4", "perfil", "actualizar perfil"], [], DfdP4),
    Rule(["p5", "búsqueda", "busqueda", "search"], [], DfdP5),
    Rule(["solicitud"], ["requests"], DfdRequests)
  ]

  /** infer_dfd: the business-process phase an issue title refers to. */
  function InferDfd(title: string, labels: seq<string>): string {
    DfdOf(ToLower(title), labels)
  }

  /** The rule chain of infer_dfd over the already lower-cased title `t`. */
  function DfdOf(t: string, labels: seq<string>): string {
    if Contains(t, "p1") || Contains(t, "crear solicitud") then DfdP1
    else if Contains(t, "p2") || Contains(t, "vendor confirma") || Contains(t, "confirma cantidad") then DfdP2
    else if Contains(t, "p3") || Contains(t, "aprueba") || Contains(t, "rechaza") then DfdP3
    else if Contains(t, "p4") || Contains(t, "perfil") || Contains(t, "actualizar perfil") then DfdP4
    else if Contains(t, "p5") || Contains(t, "búsqueda") || Contains(t, "busqueda") || Contains(t, "search") then DfdP5
    else if "requests" in labels || Contains(t, "solicitud") then DfdRequests
    else NotInDfd
  }

  /** When each process rule fires, spelled out keyword by keyword. */
  lemma DfdRulesFire(t: string, labels: seq<string>)
    ensures Fires(DfdRules[0], t, labels) == (Contains(t, "p1") || Contains(t, "crear solicitud"))
    ensures Fires(DfdRules[1], t, labels) ==
      (Contains(t, "p2") || Contains(t, "vendor confirma") || Contains(t, "confirma cantidad"))
    ensures Fires(DfdRules[2], t, labels) == (Contains(t, "p3") || Contains(t, "aprueba") || Contains(t, "rechaza"))
    ensures Fires(DfdRules[3], t, labels) ==
      (Contains(t, "p4") || Contains(t, "perfil") || Contains(t, "actualizar perfil"))
    ensures Fires(DfdRules[4], t, labels) ==
      (Contains(t, "p5") || Contains(t, "búsqueda") || Contains(t, "busqueda") || Contains(t, "search"))
    ensures Fires(DfdRules[5], t, labels) == ("requests" in labels || Contains(t, "solicitud"))
  {
  }

  /** The rule chain is the first-match evaluation of the rule table. */
  lemma DfdOfByRules(t: string, labels: seq<string>)
    ensures DfdOf(t, labels) == FirstMatch(DfdRules, t, labels, NotInDfd)
  {
    DfdOfFlags(t, labels);
    DfdRulesFlags(t, labels);
  }

  /** The rule table, evaluated rule by rule, as one expression over whether each rule fires. */
  function DfdFlags(t: string, labels: seq<string>): string {
    var r := DfdRules;
    if Fires(r[0], t, labels) then DfdP1
    else if Fires(r[1], t, labels) then DfdP2
    else if Fires(r[2], t, labels) then DfdP3
    else if Fires(r[3], t, labels) then DfdP4
    else if Fires(r[4], t, labels) then DfdP5
    else if Fires(r[5], t, labels) then DfdRequests
    else NotInDfd
  }

  /** The if-chain of infer_dfd agrees with the rule-by-rule expression. */
  lemma DfdOfFlags(t: string, labels: seq<string>)
    ensures DfdOf(t, labels) == DfdFlags(t, labels)
  {
    DfdRulesFire(t, labels);
  }

  /** First-match evaluation of the table agrees with the rule-by-rule expression. */
  lemma DfdRulesFlags(t: string, labels: seq<string>)
    ensures FirstMatch(DfdRules, t, labels, NotInDfd) == DfdFlags(t, labels)
  {
    var r := DfdRules;
    assert FirstMatch(r[6..], t, labels, NotInDfd) == NotInDfd;
    FirstMatchUnfold(r, t, labels, NotInDfd, 5);
    FirstMatchUnfold(r, t, labels, NotInDfd, 4);
    FirstMatchUnfold(r, t, labels, NotInDfd, 3);
    FirstMatchUnfold(r, t, labels, NotInDfd, 2);
    FirstMatchUnfold(r, t, labels, NotInDfd, 1);
    FirstMatchUnfold(r, t, labels, NotInDfd, 0);
    assert r[0..] == r;
  }

  /** infer_dfd is the first-match evaluation of the ordered process rules on
      the lower-cased title. */
  lemma InferDfdByRules(title: string, labels: seq<string>)
    ensures InferDfd(title, labels) == FirstMatch(DfdRules, ToLower(title), labels, NotInDfd)
  {
    DfdOfByRules(ToLower(title), labels);
  }

  /** The keyword "actualizar perfil" of rule P4 never decides anything: a title
      containing it already contains "perfil". */
  lemma ActualizarPerfilSubsumed(title: string)
    requires Contains(ToLower(title), "actualizar perfil")
    ensures Contains(ToLower(title), "perfil")
  {
    var big := "actualizar perfil";
    ContainsPiece(ToLower(title), big, 11, 17);
    assert big[11..17] == "perfil";
  }

  // ---------------------------------------------------------------------------
  // infer_role
  // ---------------------------------------------------------------------------

  const NoRole := "N/A"

  /** The roles, in the order infer_role tries them. */
  const Roles: seq<string> := ["admin", "vendor", "buyer", "viewer"]

  /** Evidence for `role`: it is a label, or the lower-cased title mentions it. */
  predicate Mentions(role: string, title: string, labels: seq<string>) {
    role in labels || Contains(ToLower(title), role)
  }

  /** infer_role: the primary user role an issue concerns. */
  function InferRole(title: string, labels: seq<string>): (role: string)
    ensures role == NoRole <==> forall i :: 0 <= i < |Roles| ==> !Mentions(Roles[i], title, labels)
    ensures role != NoRole ==> exists i :: 0 <= i < |Roles| && role == Roles[i] &&
                                           Mentions(role, title, labels) &&
                                           forall j :: 0 <= j < i ==> !Mentions(Roles[j], title, labels)
  {
    var tl := ToLower(title);
    if "admin" in labels || Contains(tl, "admin") then
      assert Roles[0] == "admin";
      "admin"
    else if "vendor" in labels || Contains(tl, "vendor") then
      assert Roles[1] == "vendor";
      "vendor"
    else if "buyer" in labels || Contains(tl, "buyer") then
      assert Roles[2] == "buyer";
      "buyer"
    else if "viewer" in labels || Contains(tl, "viewer") then
      assert Roles[3] == "viewer";
      "viewer"
    else
      NoRole
  }

  /** With no role among the labels and none named in the title, the role is "N/A". */
  lemma InferRoleNone(title: string, labels: seq<string>)
    requires "admin" !in labels && "vendor" !in labels && "buyer" !in labels && "viewer" !in labels
    requires var tl := ToLower(title);
      !Contains(tl, "admin") && !Contains(tl, "vendor") && !Contains(tl, "buyer") && !Contains(tl, "viewer")
    ensures InferRole(title, labels) == NoRole
  {
  }
}
