/** The issue-body templates of kanban/create_issues.py (body_feature, body_docs,
    body_db, body_bug) and the dispatch on the kind string (build_body). Every
    template is a fixed Markdown layout: a heading line, the description
    inserted verbatim, then the rest of the layout; only the feature template
    also interpolates the process tag and the role. */
module Templates {
  import opened Labels

  /** The template build_body picks for a kind string: "docs", "db" and "bug"
      have their own, anything else gets the feature template. */
  function TemplateFor(kind: string): (k: Kind)
    ensures k == Feature <==> kind !in {"docs", "db", "bug"}
    ensures k != Feature ==> kind == k.Name()
  {
    if kind == "docs" then Docs
    else if kind == "db" then Db
    else if kind == "bug" then Bug
    else Feature
  }

  /** The first line of each template, the one just above the description. */
  function Heading(k: Kind): string {
    match k
    case Feature => "## Resumen corto\n"
    case Docs => "## Entregable / Documento\n"
    case Db => "## Objetivo del cambio\n"
    case Bug => "## Resumen del bug\n"
  }

  /** body_feature, after the description. */
  function FeatureTail(dfd: string, role: string): string {
    "\n\n## Proceso DFD relacionado\n" + dfd +
    "\n\n## Rol principal\n" + role +
    "\n\n## Historia de usuario\n" + UserStory(role) + FeatureChecklists
  }

  /** The user-story line of the feature template, with the role filled in. */
  function UserStory(role: string): string {
    "Como " + role + " quiero ______ para ______.\n"
  }

  /** The fixed sections that close the feature template. */
  const FeatureChecklists: string :=
    "\n## Criterios de aceptación\n" +
    "- [ ] Validación server-side aplicada\n" +
    "- [ ] Control de acceso por rol verificado\n" +
    "- [ ] Se registra en audit_logs cuando corresponde\n" +
    "- [ ] UI/flujo probado en local\n" +
    "\n## UI / Mockup (si aplica)\nLink o captura: ______\n" +
    "\n## Impacto en DB (si aplica)\nTablas/acciones: ______\n" +
    "\n## Definition of Done\n" +
    "- [ ] Funciona según criterios\n" +
    "- [ ] Sin accesos indebidos por rol\n" +
    "- [ ] Evidencia/captura si aplica\n"

  /** body_docs, after the description. */
  const DocsTail: string :=
    "\n\n## Qué se va a agregar o actualizar\n- ______\n" +
    "\n## Ubicación en el repositorio\n- ______ (ej. docs/dfd/, docs/mockups/, README.md)\n" +
    "\n## Checklist\n" +
    "- [ ] Link o captura verificable incluida\n" +
    "- [ ] Formato y subtítulos correctos\n"

  /** body_db, after the description. */
  const DbTail: string :=
    "\n\n## Tablas/objetos afectados\n- users\n- requests\n- request_events\n- audit_logs\n" +
    "\n## Migración / Script\n- Archivo: ______\n- Pasos: ______\n" +
    "\n## Rollback\n- ______\n"

  /** body_bug, after the description. */
  const BugTail: string :=
    "\n\n## Pasos para reproducir\n1. ______\n2. ______\n3. ______\n" +
    "\n## Comportamiento esperado\n______\n" +
    "\n## Comportamiento actual\n______\n" +
    "\n## Logs / Capturas\n______\n" +
    "\n## Entorno\n- Local (MAMP) / Staging / Producción: ______\n"

  function BodyFeature(desc: string, dfd: string, role: string): string {
    Heading(Feature) + desc + FeatureTail(dfd, role)
  }

  function BodyDocs(desc: string): string {
    Heading(Docs) + desc + DocsTail
  }

  function BodyDb(desc: string): string {
    Heading(Db) + desc + DbTail
  }

  function BodyBug(desc: string): string {
    Heading(Bug) + desc + BugTail
  }

  /** build_body: the Markdown body for an issue of the given kind. */
  function BuildBody(kind: string, desc: string, dfd: string, role: string): string {
    if kind == "docs" then BodyDocs(desc)
    else if kind == "db" then BodyDb(desc)
    else if kind == "bug" then BodyBug(desc)
    else BodyFeature(desc, dfd, role)
  }

  /** Everything of a template after the description. */
  function Tail(k: Kind, dfd: string, role: string): string {
    match k
    case Feature => FeatureTail(dfd, role)
    case Docs => DocsTail
    case Db => DbTail
    case Bug => BugTail
  }

  /** Every body is its template's heading, the description verbatim, and a tail
      that depends on the template alone, except that the feature tail also
      carries the process tag and the role. */
  lemma BodyShape(kind: string, desc: string, dfd: string, role: string)
    ensures BuildBody(kind, desc, dfd, role) == Heading(TemplateFor(kind)) + desc + Tail(TemplateFor(kind), dfd, role)
    ensures TemplateFor(kind) != Feature ==> BuildBody(kind, desc, dfd, role) == Heading(TemplateFor(kind)) + desc + Tail(TemplateFor(kind), "", "")
  {
  }

  /** The description appears verbatim right after the heading line. */
  lemma DescriptionVerbatim(kind: string, desc: string, dfd: string, role: string)
    ensures var h := Heading(TemplateFor(kind));
            var body := BuildBody(kind, desc, dfd, role);
            |h| + |desc| <= |body| && body[..|h|] == h && body[|h|..|h| + |desc|] == desc
  {
    BodyShape(kind, desc, dfd, role);
    Strings.MiddleOf(Heading(TemplateFor(kind)), desc, Tail(TemplateFor(kind), dfd, role));
  }

  /** Only the feature template depends on the process tag and the role. */
  lemma OnlyFeatureUsesDfdAndRole(kind: string, desc: string, dfd1: string, role1: string, dfd2: string, role2: string)
    requires TemplateFor(kind) != Feature
    ensures BuildBody(kind, desc, dfd1, role1) == BuildBody(kind, desc, dfd2, role2)
  {
  }

  /** The user story, with the role filled in, is part of the feature tail. */
  lemma FeatureTailStory(dfd: string, role: string)
    ensures Strings.Contains(FeatureTail(dfd, role), "Como " + role + " quiero")
  {
    var story := "Como " + role + " quiero";
    var intro := "\n\n## Proceso DFD relacionado\n" + dfd + "\n\n## Rol principal\n" + role + "\n\n## Historia de usuario\n";
    assert Strings.Contains(UserStory(role), story) by {
      assert UserStory(role) == story + " ______ para ______.\n";
    }
    Strings.ContainsExtend(intro, UserStory(role), FeatureChecklists, story);
  }

  /** The role is filled into the feature template's user story. */
  lemma FeatureUserStory(desc: string, dfd: string, role: string)
    ensures Strings.Contains(BuildBody("feature", desc, dfd, role), "Como " + role + " quiero")
  {
    var story := "Como " + role + " quiero";
    FeatureTailStory(dfd, role);
    Strings.ContainsExtend(Heading(Feature) + desc, FeatureTail(dfd, role), "", story);
    assert BuildBody("feature", desc, dfd, role) == Heading(Feature) + desc + FeatureTail(dfd, role) + "";
  }

  /** The heading comes first in every body. */
  lemma HeadingFirst(kind: string, desc: string, dfd: string, role: string, i: nat)
    requires i < |Heading(TemplateFor(kind))|
    ensures BuildBody(kind, desc, dfd, role)[i] == Heading(TemplateFor(kind))[i]
  {
    BodyShape(kind, desc, dfd, role);
  }

  /** Kinds that select different templates never produce the same body,
      whatever the description, process tag and role. */
  lemma TemplatesDistinct(kind1: string, desc1: string, dfd1: string, role1: string,
                          kind2: string, desc2: string, dfd2: string, role2: string)
    requires TemplateFor(kind1) != TemplateFor(kind2)
    ensures BuildBody(kind1, desc1, dfd1, role1) != BuildBody(kind2, desc2, dfd2, role2)
  {
    var k1, k2 := TemplateFor(kind1), TemplateFor(kind2);
    // "## Resumen corto" and "## Resumen del bug" first differ at position 11;
    // every other pair of headings already differs at position 3.
    var i := if (k1 == Feature && k2 == Bug) || (k1 == Bug && k2 == Feature) then 11 else 3;
    assert Heading(k1)[i] != Heading(k2)[i];
    HeadingFirst(kind1, desc1, dfd1, role1, i);
    HeadingFirst(kind2, desc2, dfd2, role2, i);
  }

  /** For a fixed kind, process tag and role the body determines the description. */
  lemma DescriptionDetermined(kind: string, desc1: string, desc2: string, dfd: string, role: string)
    requires BuildBody(kind, desc1, dfd, role) == BuildBody(kind, desc2, dfd, role)
    ensures desc1 == desc2
  {
    var h, t := Heading(TemplateFor(kind)), Tail(TemplateFor(kind), dfd, role);
    BodyShape(kind, desc1, dfd, role);
    BodyShape(kind, desc2, dfd, role);
    assert |desc1| == |desc2|;
    Strings.MiddleOf(h, desc1, t);
    Strings.MiddleOf(h, desc2, t);
  }

  /** Classifying a kind and naming it selects that kind's own template. */
  lemma TemplateForName(k: Kind)
    ensures TemplateFor(k.Name()) == k
  {
  }
}
