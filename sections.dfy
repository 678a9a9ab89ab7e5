/**
 * The closed enumeration of page sections (the `SectionId` union type of
 * src/index.tsx) and the element ids they are rendered under.
 */
module Sections {
  import opened Wrappers

  datatype SectionId = Hero | About | Skills | Experience | Projects | Contact

  /** The DOM id string of a section, as written in the `SectionId` union. */
  function IdName(s: SectionId): (r: string)
    ensures |r| > 0 && forall k :: 0 <= k < |r| ==> 'a' <= r[k] <= 'z'
  {
    match s
    case Hero => "hero"
    case About => "about"
    case Skills => "skills"
    case Experience => "experience"
    case Projects => "projects"
    case Contact => "contact"
  }

  /** Reads an element id back as a section; ids outside the union give None. */
  function ParseSectionId(name: string): (r: Option<SectionId>)
    ensures r.Some? ==> IdName(r.value) == name
  {
    if name == "hero" then Some(Hero)
    else if name == "about" then Some(About)
    else if name == "skills" then Some(Skills)
    else if name == "experience" then Some(Experience)
    else if name == "projects" then Some(Projects)
    else if name == "contact" then Some(Contact)
    else None
  }

  /** Every section's id reads back as that section, so distinct sections have distinct ids. */
  lemma ParseIdName(s: SectionId)
    ensures ParseSectionId(IdName(s)) == Some(s)
  {
  }

  lemma IdNameInjective(s: SectionId, t: SectionId)
    ensures IdName(s) == IdName(t) ==> s == t
  {
    ParseIdName(s);
    ParseIdName(t);
  }
}
