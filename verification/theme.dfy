/**
 * The colour theme hook (hooks/useTheme.ts): the theme is chosen from the
 * stored setting, then the system preference, and the effect mirrors it
 * onto the document's class list and back into storage.
 */
module Theme {
  import opened Wrappers

  datatype Theme = Light | Dark

  /** What the hook can see when it starts: no browser storage at all, or the stored text and the system preference. */
  datatype Env = NoStorage | Browser(stored: Option<string>, prefersDark: bool)

  /** The document root's class list and the stored `theme` entry. */
  datatype Document = Document(classes: set<string>, stored: Option<string>)

  const StorageKey: string := "theme"

  function Name(t: Theme): (s: string)
    ensures s == "light" || s == "dark"
    ensures t == Light <==> s == "light"
  {
    if t == Light then "light" else "dark"
  }

  /**
   * The initial theme: a stored value of exactly "dark" or "light" wins,
   * then the system preference; without storage the theme is light.
   */
  function InitialTheme(env: Env): (t: Theme)
    ensures env.NoStorage? ==> t == Light
    ensures env.Browser? && env.stored == Some("dark") ==> t == Dark
    ensures env.Browser? && env.stored == Some("light") ==> t == Light
    ensures env.Browser? && env.stored != Some("dark") && env.stored != Some("light") ==>
      (t == Dark <==> env.prefersDark)
  {
    match env
    case NoStorage => Light
    case Browser(stored, prefersDark) =>
      if stored == Some("dark") then Dark
      else if stored == Some("light") then Light
      else if prefersDark then Dark
      else Light
  }

  /** `toggleTheme`. */
  function Toggle(t: Theme): (r: Theme)
    ensures r != t
  {
    if t == Light then Dark else Light
  }

  /** Toggling twice gives the theme back. */
  lemma ToggleInvolution(t: Theme)
    ensures Toggle(Toggle(t)) == t
  {
  }

  /**
   * The effect: the other theme's class is removed, this theme's class is
   * added, and the theme's name is stored. Other classes are untouched.
   */
  function Apply(doc: Document, t: Theme): (r: Document)
    ensures Name(t) in r.classes && Name(Toggle(t)) !in r.classes
    ensures r.stored == Some(Name(t))
    ensures forall c :: c != "light" && c != "dark" ==> (c in r.classes <==> c in doc.classes)
  {
    Document(doc.classes - {Name(Toggle(t))} + {Name(t)}, Some(Name(t)))
  }

  /** A theme the effect has stored is the one chosen on the next start, whatever the system prefers. */
  lemma StoredThemeRestored(doc: Document, t: Theme, prefersDark: bool)
    ensures InitialTheme(Browser(Apply(doc, t).stored, prefersDark)) == t
  {
  }
}
