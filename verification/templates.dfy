/**
 * The template catalog (src/components/CertificateTemplates.js): twelve
 * fixed presets, their categories in first-seen order, the cards grouped
 * under each category, and a single-slot selection that is handed to the
 * caller on confirmation.
 */
module Templates {
  import opened Collections
  import opened Records

  /** A preset: its id, card name, category, and the partial certificate it pre-fills. */
  datatype Template = Template(id: string, name: string, category: string, data: Fields)

  /** The shipped presets, in catalog order. */
  const Catalog: seq<Template> := [
    Template("aws-architect", "AWS Solutions Architect", "Cloud Computing",
      map["title" := "AWS Certified Solutions Architect - Associate",
          "issuer" := "Amazon Web Services",
          "description" := "Validates expertise in designing distributed systems on AWS",
          "verification_url" := "https://aws.amazon.com/certification/verify/"]),
    Template("google-cloud", "Google Cloud Professional", "Cloud Computing",
      map["title" := "Google Cloud Professional Cloud Architect",
          "issuer" := "Google Cloud",
          "description" := "Demonstrates ability to design and manage Google Cloud solutions",
          "verification_url" := "https://cloud.google.com/certification/"]),
    Template("microsoft-azure", "Microsoft Azure Fundamentals", "Cloud Computing",
      map["title" := "Microsoft Azure Fundamentals (AZ-900)",
          "issuer" := "Microsoft",
          "description" := "Foundational knowledge of cloud services and Microsoft Azure",
          "verification_url" := "https://docs.microsoft.com/en-us/learn/certifications/"]),
    Template("cissp", "CISSP Security", "Cybersecurity",
      map["title" := "Certified Information Systems Security Professional (CISSP)",
          "issuer" := "(ISC)Â² - International Information System Security Certification Consortium",
          "description" := "Advanced cybersecurity certification for experienced professionals",
          "verification_url" := "https://www.isc2.org/Certifications/CISSP"]),
    Template("pmp", "Project Management Professional", "Project Management",
      map["title" := "Project Management Professional (PMP)",
          "issuer" := "Project Management Institute (PMI)",
          "description" := "Globally recognized project management certification",
          "verification_url" := "https://www.pmi.org/certifications/project-management-pmp"]),
    Template("scrum-master", "Certified Scrum Master", "Agile/Scrum",
      map["title" := "Certified ScrumMaster (CSM)",
          "issuer" := "Scrum Alliance",
          "description" := "Demonstrates understanding of Scrum framework and ability to act as Scrum Master",
          "verification_url" := "https://www.scrumalliance.org/get-certified/scrum-master-track/certified-scrummaster"]),
    Template("comptia-security", "CompTIA Security+", "Cybersecurity",
      map["title" := "CompTIA Security+ Certification",
          "issuer" := "CompTIA",
          "description" := "Entry-level cybersecurity certification covering essential security skills",
          "verification_url" := "https://www.comptia.org/certifications/security"]),
    Template("cisco-ccna", "Cisco CCNA", "Networking",
      map["title" := "Cisco Certified Network Associate (CCNA)",
          "issuer" := "Cisco",
          "description" := "Foundation-level networking certification covering network fundamentals",
          "verification_url" := "https://www.cisco.com/c/en/us/training-events/training-certifications/certifications/associate/ccna.html"]),
    Template("oracle-java", "Oracle Java Certification", "Programming",
      map["title" := "Oracle Certified Professional Java SE Developer",
          "issuer" := "Oracle",
          "description" := "Validates Java programming skills and knowledge",
          "verification_url" := "https://education.oracle.com/oracle-certification-path/pFamily_48"]),
    Template("salesforce-admin", "Salesforce Administrator", "CRM/Business",
      map["title" := "Salesforce Certified Administrator",
          "issuer" := "Salesforce",
          "description" := "Demonstrates skills to configure and manage Salesforce applications",
          "verification_url" := "https://trailhead.salesforce.com/credentials/administrator"]),
    Template("coursera-course", "Online Course Certificate", "Education",
      map["title" := "Course Completion Certificate",
          "issuer" := "Online Learning Platform",
          "description" := "Certificate of completion for online course or specialization"]),
    Template("custom", "Custom Certificate", "Other",
      map["title" := "",
          "issuer" := "",
          "description" := "Create a custom certificate entry"])
  ]

  /** `templates.map(t => t.category)`. */
  function CategoryList(ts: seq<Template>): (cs: seq<string>)
    ensures |cs| == |ts| && forall i :: 0 <= i < |ts| ==> cs[i] == ts[i].category
  {
    seq(|ts|, i requires 0 <= i < |ts| => ts[i].category)
  }

  /** `[...new Set(templates.map(t => t.category))]`: the section headings. */
  function Categories(ts: seq<Template>): (headings: seq<string>)
    ensures NoDuplicates(headings)
    ensures forall i :: 0 <= i < |ts| ==> ts[i].category in headings
  {
    Distinct(CategoryList(ts))
  }

  /**
   * The headings have no duplicates, cover every template's category, name
   * only categories some template has, and follow first occurrence in the
   * catalog.
   */
  lemma CategoriesExactly(ts: seq<Template>)
    ensures NoDuplicates(Categories(ts))
    ensures forall i :: 0 <= i < |ts| ==> ts[i].category in Categories(ts)
    ensures forall c :: c in Categories(ts) ==> exists i :: 0 <= i < |ts| && ts[i].category == c
    ensures forall i, j :: 0 <= i < j < |Categories(ts)| ==>
              FirstIndex(CategoryList(ts), Categories(ts)[i]) < FirstIndex(CategoryList(ts), Categories(ts)[j])
  {
    var names := CategoryList(ts);
    forall i | 0 <= i < |ts|
      ensures ts[i].category in Categories(ts)
    {
      assert names[i] == ts[i].category;
    }
    forall c | c in Categories(ts)
      ensures exists i :: 0 <= i < |ts| && ts[i].category == c
    {
      var k :| 0 <= k < |Categories(ts)| && Categories(ts)[k] == c;
      assert c in names;
      var i := FirstIndex(names, c);
      assert ts[i].category == c;
    }
    DistinctFirstSeenOrder(names);
  }

  /** The shipped catalog has twelve presets with pairwise distinct ids. */
  lemma CatalogIdsDistinct()
    ensures |Catalog| == 12
    ensures forall i, j :: 0 <= i < j < |Catalog| ==> Catalog[i].id != Catalog[j].id
  {
  }

  /** The category of each shipped preset, in catalog order. */
  lemma CatalogCategoryList()
    ensures CategoryList(Catalog) == ["Cloud Computing", "Cloud Computing", "Cloud Computing",
                                      "Cybersecurity", "Project Management", "Agile/Scrum",
                                      "Cybersecurity", "Networking", "Programming",
                                      "CRM/Business", "Education", "Other"]
  {
  }

  /**
   * Where each of nine distinct names first occurs in a column shaped like
   * the shipped category column: three of the first name, the second name
   * again at position 6, then seven new names.
   */
  lemma CategoryShapeFirstIndices<T>(a: T, b: T, c: T, d: T, e: T, f: T, g: T, h: T, i: T)
    requires NoDuplicates([a, b, c, d, e, f, g, h, i])
    ensures var names := [a, a, a, b, c, d, b, e, f, g, h, i];
            && FirstIndex(names, a) == 0 && FirstIndex(names, b) == 3 && FirstIndex(names, c) == 4
            && FirstIndex(names, d) == 5 && FirstIndex(names, e) == 7 && FirstIndex(names, f) == 8
            && FirstIndex(names, g) == 9 && FirstIndex(names, h) == 10 && FirstIndex(names, i) == 11
  {
    var names := [a, a, a, b, c, d, b, e, f, g, h, i];
    var heads := [a, b, c, d, e, f, g, h, i];
    assert heads[0] == a && heads[1] == b && heads[2] == c && heads[3] == d && heads[4] == e;
    assert heads[5] == f && heads[6] == g && heads[7] == h && heads[8] == i;
    FirstIndexAt(names, 0);
    FirstIndexAt(names, 3);
    FirstIndexAt(names, 4);
    FirstIndexAt(names, 5);
    FirstIndexAt(names, 7);
    FirstIndexAt(names, 8);
    FirstIndexAt(names, 9);
    FirstIndexAt(names, 10);
    FirstIndexAt(names, 11);
  }

  /** The nine distinct names list such a column in first-seen order. */
  lemma CategoryShapeFirstSeen<T>(a: T, b: T, c: T, d: T, e: T, f: T, g: T, h: T, i: T)
    requires NoDuplicates([a, b, c, d, e, f, g, h, i])
    ensures InFirstSeenOrder([a, a, a, b, c, d, b, e, f, g, h, i], [a, b, c, d, e, f, g, h, i])
  {
    CategoryShapeFirstIndices(a, b, c, d, e, f, g, h, i);
    FirstSeenByKeys([a, a, a, b, c, d, b, e, f, g, h, i], [a, b, c, d, e, f, g, h, i],
                    [0, 3, 4, 5, 7, 8, 9, 10, 11]);
  }

  /** The shipped catalog's nine headings, in display order. */
  lemma CatalogCategories()
    ensures Categories(Catalog) == ["Cloud Computing", "Cybersecurity", "Project Management",
                                    "Agile/Scrum", "Networking", "Programming",
                                    "CRM/Business", "Education", "Other"]
  {
    CatalogCategoryList();
    CategoryShapeFirstSeen("Cloud Computing", "Cybersecurity", "Project Management",
                           "Agile/Scrum", "Networking", "Programming",
                           "CRM/Business", "Education", "Other");
    DistinctUnique(CategoryList(Catalog), ["Cloud Computing", "Cybersecurity", "Project Management",
                                           "Agile/Scrum", "Networking", "Programming",
                                           "CRM/Business", "Education", "Other"]);
  }

  /** The test `t => t.category === category`. */
  function InCategory(category: string): Template -> bool
  {
    (t: Template) => t.category == category
  }

  /** `templates.filter(t => t.category === category)`: the cards under one heading. */
  function Group(ts: seq<Template>, category: string): (group: seq<Template>)
    ensures |group| <= |ts|
    ensures forall i :: 0 <= i < |group| ==> group[i] in ts && group[i].category == category
  {
    var group := Filter(ts, InCategory(category));
    forall i | 0 <= i < |group|
      ensures group[i] in ts
    {
      FilterMembers(ts, InCategory(category), group[i]);
    }
    group
  }

  /** The cards as the page lays them out: each heading's group, heading by heading. */
  function Grouped(ts: seq<Template>, headings: seq<string>): (laid: seq<Template>)
    ensures forall i :: 0 <= i < |laid| ==> laid[i] in ts && laid[i].category in headings
  {
    if headings == [] then []
    else Grouped(ts, headings[..|headings| - 1]) + Group(ts, headings[|headings| - 1])
  }

  /**
   * Under distinct headings, a template is laid out as often as it occurs in
   * the catalog when its category is one of the headings, and not at all
   * otherwise.
   */
  lemma {:induction false} GroupedCount(ts: seq<Template>, headings: seq<string>, t: Template)
    requires NoDuplicates(headings)
    ensures multiset(Grouped(ts, headings))[t] == if t.category in headings then multiset(ts)[t] else 0
  {
    if headings != [] {
      var init, last := headings[..|headings| - 1], headings[|headings| - 1];
      assert headings == init + [last];
      GroupedCount(ts, init, t);
      FilterCount(ts, InCategory(last), t);
    }
  }

  /**
   * Grouping partitions the catalog: laid out under its own headings, every
   * template appears exactly as often as it occurs in the catalog.
   */
  lemma GroupingPartitions(ts: seq<Template>)
    ensures multiset(Grouped(ts, Categories(ts))) == multiset(ts)
  {
    CategoriesExactly(ts);
    forall t
      ensures multiset(Grouped(ts, Categories(ts)))[t] == multiset(ts)[t]
    {
      GroupedCount(ts, Categories(ts), t);
      if t in ts {
        var k :| 0 <= k < |ts| && ts[k] == t;
        assert ts[k].category in Categories(ts);
      }
    }
  }

  /** A catalog template is in a heading's group exactly when the heading is its category. */
  lemma GroupMembership(ts: seq<Template>, t: Template, category: string)
    requires t in ts
    ensures t in Group(ts, category) <==> t.category == category
  {
    FilterMembers(ts, InCategory(category), t);
  }

  /** Within a group, cards follow catalog order. */
  lemma GroupKeepsCatalogOrder(ts: seq<Template>, i: nat, j: nat)
    requires i < j < |ts| && ts[i].category == ts[j].category
    ensures exists i', j' :: 0 <= i' < j' < |Group(ts, ts[i].category)|
                             && Group(ts, ts[i].category)[i'] == ts[i]
                             && Group(ts, ts[i].category)[j'] == ts[j]
  {
    var g := Group(ts, ts[i].category);
    FilterKeepsOrder(ts, InCategory(ts[i].category), i, j);
    var i', j' :| 0 <= i' < j' < |g| && g[i'] == ts[i] && g[j'] == ts[j];
  }

  /** The template dialog's single-slot selection. */
  class TemplatePicker {
    /** The template last clicked, if any. */
    var selected: Option<Template>

    constructor ()
      ensures selected == None
    {
      selected := None;
    }

    /** The selection only ever holds a catalog template. */
    ghost predicate Valid()
      reads this
    {
      selected.Some? ==> selected.value in Catalog
    }

    /** Clicking a card replaces the selection with that card's template. */
    method SelectTemplate(t: Template)
      requires t in Catalog
      modifies this
      ensures selected == Some(t) && Valid()
    {
      selected := Some(t);
    }

    /**
     * "Use Selected Template": with nothing selected, nothing happens;
     * otherwise the selected template's data is handed to the caller once
     * (returned as `handed`). The selection is not cleared.
     */
    method HandleSelectTemplate() returns (handed: Option<Fields>)
      requires Valid()
      ensures selected.None? ==> handed.None?
      ensures selected.Some? ==> handed == Some(selected.value.data)
      ensures handed.Some? ==> exists t :: t in Catalog && t.data == handed.value
    {
      if selected.Some? {
        handed := Some(selected.value.data);
      } else {
        handed := None;
      }
    }
  }
}
