/** The row-building converter of logic.py: one CSV row per MODS file, assembled cell by
    cell and stored in a frame under its row number. The date repair it uses lives in
    module Dates; the helpers here (file-name identifiers, the "ca." title rule, the
    extent cut and the numbered columns) are shared with module Mappings. */
module Logic {
  import opened Wrappers
  import opened PyStr
  import opened Soup
  import opened Dates

  /** One input file: its path (directories separated by '/') and its parsed document. */
  datatype File = File(path: string, soup: Element)

  // ---------------------------------------------------------------- column names

  /** multi_hdg_mkr: Creator1_Given, Subject2_Family, ... */
  function MultiHdgMkr(pt1: string, num: nat, pt2: string): string
  {
    NumKey(pt1, num, "_" + pt2)
  }

  /** The column pre{n}post, e.g. Language2. */
  function NumKey(pre: string, n: nat, post: string): string
  {
    pre + NatToStr(n) + post
  }

  /** The column reads pt1, then the decimal number, then '_', then pt2. */
  lemma MultiHdgMkrShape(pt1: string, num: nat, pt2: string)
    ensures var r := MultiHdgMkr(pt1, num, pt2);
      && |r| >= |pt1| + |pt2| + 2 && r[..|pt1|] == pt1 && r[|r| - |pt2|..] == pt2
      && r[|r| - |pt2| - 1] == '_' && AllDigits(r[|pt1|..|r| - |pt2| - 1])
      && DecimalValue(r[|pt1|..|r| - |pt2| - 1]) == num
  {
    var r := MultiHdgMkr(pt1, num, pt2);
    assert r[|pt1|..|r| - |pt2| - 1] == NatToStr(num);
    DecimalRoundTrip(num);
  }

  /** A numbered column name read back gives its number: different numbers never share
      a column. */
  lemma NumberedNameInjective(pre: string, post: string, a: nat, b: nat)
    requires NumKey(pre, a, post) == NumKey(pre, b, post)
    ensures a == b
  {
    var s := NumKey(pre, a, post);
    assert |NatToStr(a)| == |NatToStr(b)|;
    assert NatToStr(a) == s[|pre|..|pre| + |NatToStr(a)|];
    assert NatToStr(b) == NumKey(pre, b, post)[|pre|..|pre| + |NatToStr(b)|];
    NatToStrInjective(a, b);
  }

  lemma MultiHdgMkrInjective(pt1: string, a: nat, b: nat, pt2: string)
    requires MultiHdgMkr(pt1, a, pt2) == MultiHdgMkr(pt1, b, pt2)
    ensures a == b
  {
    NumberedNameInjective(pt1, "_" + pt2, a, b);
  }

  /** The two series of numbered one-value columns: SubjectN_Topic and LanguageN. */
  datatype Series = Topics | Languages

  /** Whose personal name a numbered name column holds, and which part of it. */
  datatype NameRole = Creator | Subject
  datatype PartKind = Given | Family

  /** The columns the loop body writes. The numbered ones carry their number; every
      column has the header Name gives it. */
  datatype Col =
    | Key | ImageLink | PID | Title | AlternativeTitle
    | CorporateCreator | Contributor1Given | Contributor1Family | CorporateContributor
    | PublisherOriginal | DateCreated | Description | Extent
    | SubjectGeographic | Coordinates | CorporateSubject1 | CorporateSubject2
    | DateRange | Genre | GenreAuthority | ResourceType | InternetMediaType | Notes
    | AccessIdentifier | LocalIdentifier | ISBN | Classification | URI | Source
    | Rights | CreativeCommonsURI | RightsStatement | RelatedItemTitle | RelatedItemPID
    | RecordCreationDate | RecordOrigin
    | Nth(series: Series, n: nat)
    | Person(role: NameRole, n: nat, part: PartKind)

  function RoleText(r: NameRole): string
  {
    match r
    case Creator => "Creator"
    case Subject => "Subject"
  }

  function PartText(p: PartKind): string
  {
    match p
    case Given => "Given"
    case Family => "Family"
  }

  /** The header of a column in the CSV. */
  function Name(c: Col): string
  {
    match c
    case Key => "key"
    case ImageLink => "imageLink"
    case PID => "PID"
    case Title => "Title"
    case AlternativeTitle => "AlternativeTitle"
    case CorporateCreator => "CorporateCreator"
    case Contributor1Given => "Contributor1_Given"
    case Contributor1Family => "Contributor1_Family"
    case CorporateContributor => "CorporateContributor"
    case PublisherOriginal => "Publisher_Original"
    case DateCreated => "DateCreated"
    case Description => "Description"
    case Extent => "Extent"
    case SubjectGeographic => "Subject_Geographic"
    case Coordinates => "Coordinates"
    case CorporateSubject1 => "CorporateSubject_1"
    case CorporateSubject2 => "CorporateSubject_2"
    case DateRange => "DateRange"
    case Genre => "Genre"
    case GenreAuthority => "GenreAuthority"
    case ResourceType => "Type"
    case InternetMediaType => "internetMediaType"
    case Notes => "Notes"
    case AccessIdentifier => "AccessIdentifier"
    case LocalIdentifier => "LocalIdentifier"
    case ISBN => "ISBN"
    case Classification => "Classification"
    case URI => "URI"
    case Source => "Source"
    case Rights => "Rights"
    case CreativeCommonsURI => "CreativeCommons_URI"
    case RightsStatement => "RightsStatement"
    case RelatedItemTitle => "relatedItem_Title"
    case RelatedItemPID => "relatedItem_PID"
    case RecordCreationDate => "recordCreationDate"
    case RecordOrigin => "recordOrigin"
    case Nth(Topics, n) => MultiHdgMkr("Subject", n, "Topic")
    case Nth(Languages, n) => NumKey("Language", n, "")
    case Person(r, n, pt) => MultiHdgMkr(RoleText(r), n, PartText(pt))
  }

  /** A numbered series of one-value columns: cell n (from 1) holds the n-th value. */
  type Cells = map<nat, string>

  /** The numbered personal-name columns: cell (n, part) holds part of name n. */
  type Names = map<(nat, PartKind), string>

  /** The cells of one row. A fixed column holds None until the loop body writes it. */
  datatype Row = Row(
    dateCreated: Option<string>, key: Option<string>, pid: Option<string>, imageLink: Option<string>,
    alternativeTitle: Option<string>, title: Option<string>, description: Option<string>,
    extent: Option<string>, topics: Cells,
    corporateSubject1: Option<string>, corporateSubject2: Option<string>,
    corporateCreator: Option<string>, corporateContributor: Option<string>,
    subjectGeographic: Option<string>,
    publisher: Option<string>, dateRange: Option<string>, notes: Option<string>, isbn: Option<string>,
    classification: Option<string>, uri: Option<string>,
    recordCreationDate: Option<string>, recordOrigin: Option<string>, coordinates: Option<string>,
    creators: Names, contributor1Given: Option<string>, contributor1Family: Option<string>,
    subjects: Names, genre: Option<string>, genreAuthority: Option<string>,
    resourceType: Option<string>, internetMediaType: Option<string>, languages: Cells,
    accessIdentifier: Option<string>, localIdentifier: Option<string>, source: Option<string>,
    rights: Option<string>, rightsStatement: Option<string>, creativeCommonsURI: Option<string>,
    relatedItemTitle: Option<string>, relatedItemPID: Option<string>)

  /** A row nothing has been written to. */
  const EmptyRow: Row := Row(None, None, None, None, None, None, None, None, map[],
                             None, None, None, None, None,
                             None, None, None, None, None, None, None, None, None,
                             map[], None, None, map[], None, None, None, None, map[],
                             None, None, None, None, None, None, None, None)

  /** The cell of a row under the column with header Name(c). */
  function Cell(row: Row, c: Col): Option<string>
  {
    match c
    case Key => row.key
    case ImageLink => row.imageLink
    case PID => row.pid
    case Title => row.title
    case AlternativeTitle => row.alternativeTitle
    case CorporateCreator => row.corporateCreator
    case Contributor1Given => row.contributor1Given
    case Contributor1Family => row.contributor1Family
    case CorporateContributor => row.corporateContributor
    case PublisherOriginal => row.publisher
    case DateCreated => row.dateCreated
    case Description => row.description
    case Extent => row.extent
    case SubjectGeographic => row.subjectGeographic
    case Coordinates => row.coordinates
    case CorporateSubject1 => row.corporateSubject1
    case CorporateSubject2 => row.corporateSubject2
    case DateRange => row.dateRange
    case Genre => row.genre
    case GenreAuthority => row.genreAuthority
    case ResourceType => row.resourceType
    case InternetMediaType => row.internetMediaType
    case Notes => row.notes
    case AccessIdentifier => row.accessIdentifier
    case LocalIdentifier => row.localIdentifier
    case ISBN => row.isbn
    case Classification => row.classification
    case URI => row.uri
    case Source => row.source
    case Rights => row.rights
    case CreativeCommonsURI => row.creativeCommonsURI
    case RightsStatement => row.rightsStatement
    case RelatedItemTitle => row.relatedItemTitle
    case RelatedItemPID => row.relatedItemPID
    case RecordCreationDate => row.recordCreationDate
    case RecordOrigin => row.recordOrigin
    case Nth(Topics, n) => Get(row.topics, n)
    case Nth(Languages, n) => Get(row.languages, n)
    case Person(Creator, n, pt) => Get(row.creators, (n, pt))
    case Person(Subject, n, pt) => Get(row.subjects, (n, pt))
  }

  /** The DataFrame: the row written at each row index. */
  type Frame = map<nat, Row>

  // ---------------------------------------------------------------- schema choice

  /** is_newspaper_issue, on the parsed document: it has a <detail type="volume">. */
  predicate IsNewspaperIssue(soup: Element)
  {
    Find(soup, TagAttr("detail", "type", "volume")).Some?
  }

  // ---------------------------------------------------------------- identifiers from the file name

  const XmlChars: set<char> := {'.', 'x', 'm', 'l'}

  const ImageLinkPrefix: string := "https://doh.arcabc.ca/islandora/object/"

  /** The base name with rstrip('.xml') applied: every trailing '.', 'x', 'm' or 'l' goes. */
  function Stem(path: string): string
  {
    var parts := Split(path, '/');
    RStripChars(parts[|parts| - 1], XmlChars)
  }

  /** repo and num: fields 0 and 1 of the stem split on '_'; IndexError without a '_'.
      The stem is repo_num itself, or starts with repo_num_ and whatever further fields
      it has are dropped. */
  function RepoAndNum(path: string): (r: Result<(string, string)>)
    ensures r.Err? <==> '_' !in Stem(path)
    ensures r.Err? ==> r.error == IndexError
    ensures r.Ok? ==> '_' !in r.value.0 && '_' !in r.value.1
    ensures r.Ok? ==>
      || Stem(path) == r.value.0 + "_" + r.value.1
      || r.value.0 + "_" + r.value.1 + "_" <= Stem(path)
  {
    var f := Split(Stem(path), '_');
    if |f| < 2 then Err(IndexError)
    else
      assert Stem(path) == f[0] + "_" + Join(f[1..], '_');
      assert |f| > 2 ==> Join(f[1..], '_') == f[1] + "_" + Join(f[2..], '_');
      Ok((f[0], f[1]))
  }

  // ---------------------------------------------------------------- title and extent

  /** The "ca." rule: an approximate date is appended to a title that does not already
      say "ca. ", unless the date is the "n.d." placeholder. */
  function CaSuffix(title: string, approximate: bool, date: string): string
  {
    if approximate && StrFind(title, "ca. ") == -1 && date != NoDate then Strip(title) + ", ca. " + date
    else title
  }

  /** A dateIssued carries qualifier="Estimated" or qualifier="approximate". */
  predicate HasApproximateDate(v: View)
  {
    || v.find(TagAttr("dateIssued", "qualifier", "Estimated")).Some?
    || v.find(TagAttr("dateIssued", "qualifier", "approximate")).Some?
  }

  /** soup.find('title').get_text().strip(); AttributeError when there is no title. */
  function TitleText(soup: Element): (r: Result<string>)
    ensures r.Err? <==> Find(soup, Tag("title")).None?
  {
    match Find(soup, Tag("title"))
    case None => Err(AttributeError)
    case Some(t) => Ok(Strip(GetText(t)))
  }

  /** The extent cut: ext[:semicol - 1] when ext contains ';' at semicol. */
  function TruncateAtSemicolon(ext: string): string
  {
    var semicol := StrFind(ext, ";");
    if semicol > -1 then SliceTo(ext, semicol - 1) else ext
  }

  /** The rule changes the title exactly for an approximate, real date and a title without
      "ca. ", and what it appends marks the title with "ca. ". */
  lemma CaSuffixMarks(title: string, approximate: bool, date: string)
    ensures CaSuffix(title, approximate, date) != title <==>
      approximate && date != NoDate && StrFind(title, "ca. ") == -1
    ensures CaSuffix(title, approximate, date) != title ==>
      StrFind(CaSuffix(title, approximate, date), "ca. ") != -1
  {
    StrFindFactor(Strip(title) + ", ", "ca. ", date);
    assert Strip(title) + ", ca. " + date == Strip(title) + ", " + "ca. " + date;
  }

  /** Applying the rule to its own result changes nothing. */
  lemma CaSuffixIdempotent(title: string, approximate: bool, date: string)
    ensures CaSuffix(CaSuffix(title, approximate, date), approximate, date) == CaSuffix(title, approximate, date)
  {
    CaSuffixMarks(title, approximate, date);
  }

  /** The three cases of the cut: no ';' keeps the text; a first ';' at k >= 1 keeps the
      k - 1 characters before the one just before it; a ';' first of all drops the last
      character, as the slice end -1 counts from the back. */
  lemma TruncateCases(ext: string)
    ensures ';' !in ext ==> TruncateAtSemicolon(ext) == ext
    ensures forall k | 0 < k < |ext| && ext[k] == ';' && ';' !in ext[..k] :: TruncateAtSemicolon(ext) == ext[..k - 1]
    ensures |ext| > 0 && ext[0] == ';' ==> TruncateAtSemicolon(ext) == ext[..|ext| - 1]
  {
    var semicol := StrFind(ext, ";");
    forall k | 0 <= k < |ext|
      ensures OccursAt(ext, ";", k) <==> ext[k] == ';'
    {
      assert ext[k..k + 1][0] == ext[k];
    }
    forall k | 0 < k < |ext| && ext[k] == ';' && ';' !in ext[..k]
      ensures TruncateAtSemicolon(ext) == ext[..k - 1]
    {
      assert forall j | 0 <= j < k :: ext[..k][j] == ext[j];
    }
    if |ext| > 0 && ext[0] == ';' {
      assert OccursAt(ext, ";", 0);
    }
  }

  // ---------------------------------------------------------------- numbered columns

  /** The stripped text of each element, in order. */
  function Texts(els: seq<Element>): (r: seq<string>)
    ensures |r| == |els|
  {
    seq(|els|, k requires 0 <= k < |els| => Strip(GetText(els[k])))
  }

  /** The cells numbered 1, 2, ... holding the given values. */
  function Numbered(vals: seq<string>): (r: Cells)
    ensures forall n | n in r :: 1 <= n <= |vals|
  {
    if vals == [] then map[]
    else Numbered(vals[..|vals| - 1])[|vals| := vals[|vals| - 1]]
  }

  /** Value n (from 1) lands in cell n, and nothing else is written. */
  lemma {:induction false} NumberedMeaning(vals: seq<string>)
    ensures forall n :: n in Numbered(vals) <==> 1 <= n <= |vals|
    ensures forall n | 1 <= n <= |vals| :: Numbered(vals)[n] == vals[n - 1]
  {
    if vals != [] {
      var init := vals[..|vals| - 1];
      NumberedMeaning(init);
      assert forall n | 0 <= n < |init| :: init[n] == vals[n];
    }
  }

  /** Writing a cell after a union is writing it into the later map. */
  lemma MapUpdateUnion(a: Cells, b: Cells, k: nat, v: string)
    ensures (a + b)[k := v] == a + b[k := v]
  {
  }

  /** Texts of one more element is one more text. */
  lemma TextsSnoc(els: seq<Element>, k: nat)
    requires k < |els|
    ensures Texts(els[..k + 1]) == Texts(els[..k]) + [Strip(GetText(els[k]))]
  {
  }

  /** Numbering one more value writes it in the next cell. */
  lemma NumberedSnoc(vals: seq<string>, v: string)
    ensures Numbered(vals + [v]) == Numbered(vals)[|vals| + 1 := v]
  {
    assert (vals + [v])[..|vals|] == vals;
  }

  /** Cell n holds value n (from 1), and there are no other cells. */
  lemma NumberedGet(vals: seq<string>, n: nat)
    ensures Get(Numbered(vals), n) == if 1 <= n <= |vals| then Some(vals[n - 1]) else None
  {
    NumberedMeaning(vals);
  }

  /** Numbering the texts of elements: cell n holds the n-th element's stripped text. */
  lemma NumberedTexts(els: seq<Element>, n: nat)
    ensures Get(Numbered(Texts(els)), n) == if 1 <= n <= |els| then Some(Strip(GetText(els[n - 1]))) else None
  {
    NumberedGet(Texts(els), n);
  }

  /** The counting loop of topics and languages: the count goes up by one, then the cell
      it names is written with the element's stripped text. */
  method WriteNumbered(cells: Cells, els: seq<Element>) returns (r: Cells)
    ensures r == cells + Numbered(Texts(els))
  {
    r := cells;
    var count := 0;
    while count < |els|
      invariant 0 <= count <= |els|
      invariant r == cells + Numbered(Texts(els[..count]))
    {
      var v := Strip(GetText(els[count]));
      TextsSnoc(els, count);
      NumberedSnoc(Texts(els[..count]), v);
      MapUpdateUnion(cells, Numbered(Texts(els[..count])), count + 1, v);
      count := count + 1;
      r := r[count := v];
    }
    assert els[..count] == els;
  }

  // ---------------------------------------------------------------- names and roles

  /** name.find('roleTerm', string=role) */
  predicate HasRole(name: Element, role: string)
  {
    Find(name, TagString("roleTerm", role)).Some?
  }

  /** name.find('namePart').getText(); AttributeError when the name has no namePart. */
  function NamePart(name: Element): Result<string>
  {
    match Find(name, Tag("namePart"))
    case None => Err(AttributeError)
    case Some(p) => Ok(GetText(p))
  }

  function GivenPart(name: Element): Option<Element>
  {
    Find(name, TagAttr("namePart", "type", "given"))
  }

  function FamilyPart(name: Element): Option<Element>
  {
    Find(name, TagAttr("namePart", "type", "family"))
  }

  /** The stripped text of an element that was found, if it was. */
  function TextOf(e: Option<Element>): Option<string>
  {
    match e
    case None => None
    case Some(x) => Some(Strip(GetText(x)))
  }

  /** df.at[i, col] = v when a value was found: otherwise the cell keeps what it held. */
  function Put(cell: Option<string>, v: Option<string>): Option<string>
  {
    if v.Some? then v else cell
  }

  /** Write part of name n when there is a value for it. */
  function WithPart(names: Names, n: nat, part: PartKind, v: Option<string>): (r: Names)
    ensures v.None? ==> r == names
    ensures v.Some? ==> r == names[(n, part) := v.value]
  {
    match v
    case None => names
    case Some(x) => names[(n, part) := x]
  }

  /** The stripped given and family parts of a personal name, where it has them. */
  datatype NameParts = NameParts(given: Option<string>, family: Option<string>)

  function PartsOf(name: Element): NameParts
  {
    NameParts(TextOf(GivenPart(name)), TextOf(FamilyPart(name)))
  }

  /** The part of a name the column of kind part holds. */
  function PartOf(np: NameParts, part: PartKind): Option<string>
  {
    match part
    case Given => np.given
    case Family => np.family
  }

  /** The given and family cells of a personal name written under number n. */
  function WithName(names: Names, n: nat, np: NameParts): Names
  {
    WithPart(WithPart(names, n, Given, np.given), n, Family, np.family)
  }

  /** WithName writes the parts np has under number n and changes nothing else. */
  lemma WithNameGet(names: Names, n: nat, np: NameParts, key: (nat, PartKind))
    ensures Get(WithName(names, n, np), key) ==
      if key == (n, Family) && np.family.Some? then np.family
      else if key == (n, Given) && np.given.Some? then np.given
      else Get(names, key)
  {
  }

  // ---------------------------------------------------------------- corporate names

  /** What the if/elif loop asks of one corporate name. */
  datatype NameFacts = NameFacts(creator: bool, contributor: bool, namePart: Result<string>)

  function FactsOf(corp: Element): NameFacts
  {
    NameFacts(HasRole(corp, "creator"), HasRole(corp, "contributor"), NamePart(corp))
  }

  function Facts(corps: seq<Element>): (r: seq<NameFacts>)
    ensures |r| == |corps|
  {
    seq(|corps|, k requires 0 <= k < |corps| => FactsOf(corps[k]))
  }

  /** The if/elif loop over the facts of the names, in order: the (creator, contributor)
      namePart texts it ends with, unstripped. A name with a creator role is a creator
      and nothing else. */
  function ElifRoles(fs: seq<NameFacts>): Result<(Option<string>, Option<string>)>
  {
    if fs == [] then Ok((None, None))
    else
      var acc :- ElifRoles(fs[..|fs| - 1]);
      var f := fs[|fs| - 1];
      if f.creator then
        var n :- f.namePart;
        Ok((Some(n), acc.1))
      else if f.contributor then
        var n :- f.namePart;
        Ok((acc.0, Some(n)))
      else Ok(acc)
  }

  /** The loop over `mods > name[type=corporate]`. */
  function CorporateRoles(corps: seq<Element>): Result<(Option<string>, Option<string>)>
  {
    ElifRoles(Facts(corps))
  }

  /** A failed prefix fails the whole loop the same way. */
  lemma {:induction false} ElifRolesPrefixError(fs: seq<NameFacts>, k: nat)
    requires k <= |fs| && ElifRoles(fs[..k]).Err?
    ensures ElifRoles(fs) == ElifRoles(fs[..k])
    decreases |fs| - k
  {
    if k < |fs| {
      assert fs[..k + 1][..k] == fs[..k];
      ElifRolesPrefixError(fs, k + 1);
    } else {
      assert fs[..k] == fs;
    }
  }

  method ChooseCorporateRoles(corps: seq<Element>) returns (r: Result<(Option<string>, Option<string>)>)
    ensures r == CorporateRoles(corps)
  {
    var cCreator: Option<string> := None;
    var cContrib: Option<string> := None;
    ghost var fs := Facts(corps);
    var k := 0;
    while k < |corps|
      invariant 0 <= k <= |corps|
      invariant ElifRoles(fs[..k]) == Ok((cCreator, cContrib))
    {
      var corp := corps[k];
      assert fs[..k + 1][..k] == fs[..k] && fs[..k + 1][k] == FactsOf(corp);
      if HasRole(corp, "creator") {
        var n := NamePart(corp);
        if n.Err? {
          ElifRolesPrefixError(fs, k + 1);
          return Err(n.error);
        }
        cCreator := Some(n.value);
      } else if HasRole(corp, "contributor") {
        var n := NamePart(corp);
        if n.Err? {
          ElifRolesPrefixError(fs, k + 1);
          return Err(n.error);
        }
        cContrib := Some(n.value);
      }
      k := k + 1;
    }
    assert fs[..k] == fs;
    r := Ok((cCreator, cContrib));
  }

  /** The loop fails exactly when some name with a creator or contributor role has a
      failed namePart, and then with that failure. */
  lemma {:induction false} ElifRolesError(fs: seq<NameFacts>)
    ensures ElifRoles(fs).Err? <==>
      exists k | 0 <= k < |fs| :: (fs[k].creator || fs[k].contributor) && fs[k].namePart.Err?
  {
    if fs != [] {
      var init := fs[..|fs| - 1];
      ElifRolesError(init);
      assert forall k | 0 <= k < |init| :: init[k] == fs[k];
    }
  }

  /** With the namePart lookup of the source, the only failure is a name with a role
      but no namePart, reported as AttributeError. */
  lemma CorporateRolesError(corps: seq<Element>)
    ensures CorporateRoles(corps).Err? <==>
      exists k | 0 <= k < |corps| :: (HasRole(corps[k], "creator") || HasRole(corps[k], "contributor")) && Find(corps[k], Tag("namePart")).None?
    ensures CorporateRoles(corps).Err? ==> CorporateRoles(corps).error == AttributeError
  {
    var fs := Facts(corps);
    ElifRolesError(fs);
    ElifRolesAttributeError(fs);
    assert forall k | 0 <= k < |corps| :: fs[k] == FactsOf(corps[k]);
  }

  /** Every failure is the failure of some namePart. */
  lemma {:induction false} ElifRolesAttributeError(fs: seq<NameFacts>)
    requires forall k | 0 <= k < |fs| :: fs[k].namePart.Err? ==> fs[k].namePart.error == AttributeError
    ensures ElifRoles(fs).Err? ==> ElifRoles(fs).error == AttributeError
  {
    if fs != [] {
      ElifRolesAttributeError(fs[..|fs| - 1]);
    }
  }

  /** There is a creator exactly when some name has a creator role. */
  lemma {:induction false} ElifCreatorNone(fs: seq<NameFacts>)
    requires ElifRoles(fs).Ok?
    ensures ElifRoles(fs).value.0.None? <==> forall k | 0 <= k < |fs| :: !fs[k].creator
  {
    if fs != [] {
      var init := fs[..|fs| - 1];
      ElifCreatorNone(init);
      assert forall k | 0 <= k < |init| :: init[k] == fs[k];
    }
  }

  /** The creator is the namePart of the LAST name with a creator role. */
  lemma {:induction false} ElifCreatorIsLast(fs: seq<NameFacts>, k: nat)
    requires ElifRoles(fs).Ok?
    requires k < |fs| && fs[k].creator && forall j | k < j < |fs| :: !fs[j].creator
    ensures fs[k].namePart.Ok? && ElifRoles(fs).value.0 == Some(fs[k].namePart.value)
  {
    var init := fs[..|fs| - 1];
    if k < |fs| - 1 {
      assert init[k] == fs[k];
      assert forall j | k < j < |init| :: init[j] == fs[j];
      ElifCreatorIsLast(init, k);
    }
  }

  /** Because of the elif, there is a contributor exactly when some name has a
      contributor role and no creator role. */
  lemma {:induction false} ElifContributorNone(fs: seq<NameFacts>)
    requires ElifRoles(fs).Ok?
    ensures ElifRoles(fs).value.1.None? <==> forall k | 0 <= k < |fs| :: !fs[k].contributor || fs[k].creator
  {
    if fs != [] {
      var init := fs[..|fs| - 1];
      ElifContributorNone(init);
      assert forall k | 0 <= k < |init| :: init[k] == fs[k];
    }
  }

  /** The contributor is the namePart of the last name that has a contributor role and
      NO creator role: a name carrying both is never a contributor. */
  lemma {:induction false} ElifContributorNeverCreator(fs: seq<NameFacts>, k: nat)
    requires ElifRoles(fs).Ok?
    requires k < |fs| && fs[k].contributor && !fs[k].creator
    requires forall j | k < j < |fs| :: !fs[j].contributor || fs[j].creator
    ensures fs[k].namePart.Ok? && ElifRoles(fs).value.1 == Some(fs[k].namePart.value)
  {
    var init := fs[..|fs| - 1];
    if k < |fs| - 1 {
      assert init[k] == fs[k];
      assert forall j | k < j < |init| :: init[j] == fs[j];
      ElifContributorNeverCreator(init, k);
    }
  }

  // ---------------------------------------------------------------- geographic subject

  /** The first element with no <cartographics> below it. */
  function FirstGeographic(els: seq<Element>): Option<Element>
  {
    if els == [] then None
    else if !HasDescendant(els[0], "cartographics") then Some(els[0])
    else FirstGeographic(els[1..])
  }

  /** None exactly when every element has <cartographics> below it; otherwise the first
      element that has none. */
  lemma {:induction false} FirstGeographicMeaning(els: seq<Element>)
    ensures FirstGeographic(els).None? <==> forall k | 0 <= k < |els| :: HasDescendant(els[k], "cartographics")
    ensures FirstGeographic(els).Some? ==> exists k | 0 <= k < |els| ::
      && els[k] == FirstGeographic(els).value && !HasDescendant(els[k], "cartographics")
      && forall j | 0 <= j < k :: HasDescendant(els[j], "cartographics")
  {
    if els != [] && HasDescendant(els[0], "cartographics") {
      FirstGeographicMeaning(els[1..]);
      assert forall k | 1 <= k < |els| :: els[k] == els[1..][k - 1];
      if FirstGeographic(els).Some? {
        var k :| 0 <= k < |els[1..]| && els[1..][k] == FirstGeographic(els).value && !HasDescendant(els[1..][k], "cartographics")
          && forall j | 0 <= j < k :: HasDescendant(els[1..][j], "cartographics");
        assert els[k + 1] == FirstGeographic(els).value;
      }
    }
  }

  /** The scan over find_all('geographic') that stops at the first hit. */
  method FindGeographic(els: seq<Element>) returns (r: Option<Element>)
    ensures r == FirstGeographic(els)
  {
    r := None;
    var k := 0;
    while k < |els|
      invariant 0 <= k <= |els|
      invariant FirstGeographic(els) == FirstGeographic(els[k..])
    {
      if !HasDescendant(els[k], "cartographics") {
        r := Some(els[k]);
        break;
      }
      assert els[k..][1..] == els[k + 1..];
      k := k + 1;
    }
  }

  // ---------------------------------------------------------------- personal names

  /** The names among ps that carry role, in order. */
  function WithRole(ps: seq<Element>, role: string): seq<Element>
  {
    if ps == [] then []
    else
      var init := WithRole(ps[..|ps| - 1], role);
      if HasRole(ps[|ps| - 1], role) then init + [ps[|ps| - 1]] else init
  }

  /** WithRole keeps exactly the names with role, and no more names than it was given. */
  lemma {:induction false} WithRoleMeaning(ps: seq<Element>, role: string)
    ensures forall x :: x in WithRole(ps, role) <==> x in ps && HasRole(x, role)
    ensures |WithRole(ps, role)| <= |ps|
  {
    if ps != [] {
      WithRoleMeaning(ps[..|ps| - 1], role);
      assert forall x :: x in ps <==> x in ps[..|ps| - 1] || x == ps[|ps| - 1];
    }
  }

  /** pCreators: the append loop over the personal names. */
  method CollectCreators(ps: seq<Element>) returns (r: seq<Element>)
    ensures r == WithRole(ps, "creator")
  {
    r := [];
    var k := 0;
    while k < |ps|
      invariant 0 <= k <= |ps|
      invariant r == WithRole(ps[..k], "creator")
    {
      assert ps[..k + 1][..k] == ps[..k];
      if HasRole(ps[k], "creator") {
        r := r + [ps[k]];
      }
      k := k + 1;
    }
    assert ps[..k] == ps;
  }


  /** What the creator loop leaves behind: pcCount == |pCreators| and the given and
      family parts of the last creator only; these are the cells written afterwards. */
  function LastCreatorCells(names: Names, pCreators: seq<Element>): Names
  {
    if pCreators == [] then names
    else WithName(names, |pCreators|, PartsOf(pCreators[|pCreators| - 1]))
  }

  /** Written into no cells, the creator loop leaves exactly the parts of the last
      creator, under the number of creators. */
  lemma LastCreatorGet(pCreators: seq<Element>, key: (nat, PartKind))
    ensures Get(LastCreatorCells(map[], pCreators), key) ==
      if pCreators != [] && key.0 == |pCreators| then PartOf(PartsOf(pCreators[|pCreators| - 1]), key.1) else None
  {
    if pCreators != [] {
      WithNameGet(map[], |pCreators|, PartsOf(pCreators[|pCreators| - 1]), key);
    }
  }

  /** The pcCount loop: every creator bumps the count and overwrites given and family. */
  method LastCreator(pCreators: seq<Element>) returns (pcCount: nat, given: Option<Element>, family: Option<Element>)
    ensures pcCount == |pCreators|
    ensures pCreators != [] ==>
      given == GivenPart(pCreators[|pCreators| - 1]) && family == FamilyPart(pCreators[|pCreators| - 1])
  {
    pcCount := 0;
    given, family := None, None;
    for k := 0 to |pCreators|
      invariant pcCount == k
      invariant k > 0 ==> given == GivenPart(pCreators[k - 1]) && family == FamilyPart(pCreators[k - 1])
    {
      pcCount := pcCount + 1;
      given := GivenPart(pCreators[k]);
      family := FamilyPart(pCreators[k]);
    }
  }

  /** The first name with role, in order, or None. */
  function FirstWithRole(ps: seq<Element>, role: string): Option<Element>
  {
    if ps == [] then None
    else if HasRole(ps[0], role) then Some(ps[0])
    else FirstWithRole(ps[1..], role)
  }

  /** None exactly when no name has role; otherwise the first name that has it. */
  lemma {:induction false} FirstWithRoleMeaning(ps: seq<Element>, role: string)
    ensures FirstWithRole(ps, role).None? <==> forall k | 0 <= k < |ps| :: !HasRole(ps[k], role)
    ensures FirstWithRole(ps, role).Some? ==> exists k | 0 <= k < |ps| ::
      ps[k] == FirstWithRole(ps, role).value && HasRole(ps[k], role) && forall j | 0 <= j < k :: !HasRole(ps[j], role)
  {
    if ps != [] && !HasRole(ps[0], role) {
      FirstWithRoleMeaning(ps[1..], role);
      assert forall k | 1 <= k < |ps| :: ps[k] == ps[1..][k - 1];
      if FirstWithRole(ps, role).Some? {
        var k :| 0 <= k < |ps[1..]| && ps[1..][k] == FirstWithRole(ps, role).value && HasRole(ps[1..][k], role)
          && forall j | 0 <= j < k :: !HasRole(ps[1..][j], role);
        assert ps[k + 1] == FirstWithRole(ps, role).value;
      }
    }
  }

  /** pContrib: the scan that breaks at the first contributor. */
  method FirstContributor(ps: seq<Element>) returns (r: Option<Element>)
    ensures r == FirstWithRole(ps, "contributor")
  {
    r := None;
    var k := 0;
    while k < |ps|
      invariant 0 <= k <= |ps|
      invariant FirstWithRole(ps, "contributor") == FirstWithRole(ps[k..], "contributor")
    {
      if HasRole(ps[k], "contributor") {
        r := Some(ps[k]);
        break;
      }
      assert ps[k..][1..] == ps[k + 1..];
      k := k + 1;
    }
  }

  /** The personal-subject loop: psCount counts every name, and each writes the parts it
      has under its own number. */
  function SubjectNames(names: Names, ns: seq<Element>): Names
  {
    if ns == [] then names
    else WithName(SubjectNames(names, ns[..|ns| - 1]), |ns|, PartsOf(ns[|ns| - 1]))
  }

  method WriteSubjectNames(names: Names, ns: seq<Element>) returns (r: Names)
    ensures r == SubjectNames(names, ns)
  {
    r := names;
    var psCount := 0;
    while psCount < |ns|
      invariant 0 <= psCount <= |ns|
      invariant r == SubjectNames(names, ns[..psCount])
    {
      var nm := ns[psCount];
      var given := TextOf(GivenPart(nm));
      var family := TextOf(FamilyPart(nm));
      assert ns[..psCount + 1][..psCount] == ns[..psCount];
      psCount := psCount + 1;
      r := WithPart(r, psCount, Given, given);
      r := WithPart(r, psCount, Family, family);
    }
    assert ns[..psCount] == ns;
  }

  /** Written into no cells, the subject-name loop leaves under number k (from 1) exactly
      the parts the k-th name has, and nothing under any other number. */
  lemma {:induction false} SubjectNamesGet(ns: seq<Element>, key: (nat, PartKind))
    ensures Get(SubjectNames(map[], ns), key) ==
      if 1 <= key.0 <= |ns| then PartOf(PartsOf(ns[key.0 - 1]), key.1) else None
  {
    if ns != [] {
      var init := ns[..|ns| - 1];
      SubjectNamesGet(init, key);
      WithNameGet(SubjectNames(map[], init), |ns|, PartsOf(ns[|ns| - 1]), key);
      if 1 <= key.0 < |ns| {
        assert init[key.0 - 1] == ns[key.0 - 1];
      }
    }
  }

  // ---------------------------------------------------------------- the queries of the loop body

  const AlternativeTitleSel: seq<Query> := [TagAttr("titleInfo", "type", "alternative"), Tag("title")]
  const CorporateSubjectSel: seq<Query> := [Tag("subject"), TagAttr("name", "type", "corporate")]
  const CorporateNameSel: seq<Query> := [Tag("mods"), TagAttr("name", "type", "corporate")]
  const PersonalNameSel: seq<Query> := [Tag("mods"), TagAttr("name", "type", "personal")]
  const PersonalSubjectSel: seq<Query> := [Tag("subject"), TagAttr("name", "type", "personal")]
  const IsbnSel: seq<Query> := [TagAttr("identifier", "type", "isbn")]
  const UriSel: seq<Query> := [TagAttr("identifier", "type", "uri")]
  const HostTitleSel: seq<Query> := [TagAttr("relatedItem", "type", "host"), Tag("titleInfo"), Tag("title")]
  const HostIdSel: seq<Query> := [TagAttr("relatedItem", "type", "host"), Tag("identifier")]

  /** The text of the first element of s, unstripped, if any. */
  function FirstRawText(s: seq<Element>): Option<string>
  {
    if s == [] then None else Some(GetText(s[0]))
  }

  function StripOpt(v: Option<string>): Option<string>
  {
    match v
    case None => None
    case Some(x) => Some(Strip(x))
  }

  /** The element at index k of s, stripped, if s is that long. */
  function TextAt(s: seq<Element>, k: nat): Option<string>
  {
    if k < |s| then Some(Strip(GetText(s[k]))) else None
  }

  /** The extent with the cut applied, if there is an extent. */
  function ExtentText(v: View): Option<string>
  {
    match v.text(Tag("extent"))
    case None => None
    case Some(t) => Some(TruncateAtSemicolon(t))
  }

  /** recordCreationDate and recordOrigin, stripped, when the document has both. */
  function RecordPair(v: View): Option<(string, string)>
  {
    match (v.find(Tag("recordCreationDate")), v.find(Tag("recordOrigin")))
    case (Some(d), Some(o)) => Some((Strip(GetText(d)), Strip(GetText(o))))
    case _ => None
  }

  /** The given and family parts of the contributor, if there is one. */
  function ContributorParts(c: Option<Element>): NameParts
  {
    match c
    case None => NameParts(None, None)
    case Some(e) => PartsOf(e)
  }

  /** "marcgt" when some genre has that authority, "aat" otherwise. */
  function GenreAuthorityOf(v: View): string
  {
    if v.find(TagAttr("genre", "authority", "marcgt")).Some? then "marcgt" else "aat"
  }

  /** What the checked part of the loop body yields for the file at row index i: the
      queries on its document, the repaired date, repo and num, the title and the
      corporate roles. */
  datatype Parsed = Parsed(view: View, date: string, repo: string, num: string,
                           title: string, roles: (Option<string>, Option<string>))

  // ---------------------------------------------------------------- the loop body, group by group

  /** DateCreated, key (the row number from 1), PID and imageLink. */
  function Identification(i: nat, p: Parsed, row: Row): Row
  {
    row.(dateCreated := Some(p.date), key := Some(NatToStr(i + 1)),
         pid := Some(Strip(p.repo + "_" + p.num)),
         imageLink := Some(ImageLinkPrefix + p.repo + "%3A" + p.num))
  }

  method WriteIdentification(i: nat, p: Parsed, row0: Row) returns (row: Row)
    ensures row == Identification(i, p, row0)
  {
    row := row0.(dateCreated := Some(p.date));
    row := row.(key := Some(NatToStr(i + 1)));
    var pid := p.repo + "_" + p.num;
    row := row.(pid := Some(Strip(pid)));
    row := row.(imageLink := Some(ImageLinkPrefix + p.repo + "%3A" + p.num));
  }

  /** AlternativeTitle, Title (with the "ca." rule), Description and Extent (cut). */
  function Titles(p: Parsed, row: Row): Row
  {
    row.(alternativeTitle := Put(row.alternativeTitle, FirstText(p.view.select(AlternativeTitleSel))),
         title := Some(CaSuffix(p.title, HasApproximateDate(p.view), p.date)),
         description := Put(row.description, p.view.text(Tag("abstract"))),
         extent := Put(row.extent, ExtentText(p.view)))
  }

  method WriteTitles(p: Parsed, row0: Row) returns (row: Row)
    ensures row == Titles(p, row0)
  {
    row := row0;
    var altTitle := p.view.select(AlternativeTitleSel);
    row := row.(alternativeTitle := Put(row.alternativeTitle, FirstText(altTitle)));
    row := row.(title := Some(CaSuffix(p.title, HasApproximateDate(p.view), p.date)));
    var descr := p.view.text(Tag("abstract"));
    row := row.(description := Put(row.description, descr));
    var ext := p.view.text(Tag("extent"));
    if ext.Some? {
      row := row.(extent := Some(TruncateAtSemicolon(ext.value)));
    }
  }

  /** SubjectN_Topic for the n-th <topic>. */
  function TopicColumns(p: Parsed, row: Row): Row
  {
    row.(topics := row.topics + Numbered(Texts(p.view.all(Tag("topic")))))
  }

  method WriteTopics(p: Parsed, row0: Row) returns (row: Row)
    ensures row == TopicColumns(p, row0)
  {
    var topics := WriteNumbered(row0.topics, p.view.all(Tag("topic")));
    row := row0.(topics := topics);
  }

  /** The first two corporate subjects, the corporate creator and contributor, and the
      first geographic subject that is not a coordinate. */
  function CorporateAndPlace(p: Parsed, row: Row): Row
  {
    var corpsu := p.view.select(CorporateSubjectSel);
    row.(corporateSubject1 := Put(row.corporateSubject1, TextAt(corpsu, 0)),
         corporateSubject2 := Put(row.corporateSubject2, TextAt(corpsu, 1)),
         corporateCreator := Put(row.corporateCreator, StripOpt(p.roles.0)),
         corporateContributor := Put(row.corporateContributor, StripOpt(p.roles.1)),
         subjectGeographic := Put(row.subjectGeographic, TextOf(FirstGeographic(p.view.all(Tag("geographic"))))))
  }

  method WriteCorporateAndPlace(p: Parsed, row0: Row) returns (row: Row)
    ensures row == CorporateAndPlace(p, row0)
  {
    row := row0;
    var corpsu := p.view.select(CorporateSubjectSel);
    row := row.(corporateSubject1 := Put(row.corporateSubject1, TextAt(corpsu, 0)));
    row := row.(corporateSubject2 := Put(row.corporateSubject2, TextAt(corpsu, 1)));
    var (cCreator, cContrib) := p.roles;
    row := row.(corporateCreator := Put(row.corporateCreator, StripOpt(cCreator)));
    row := row.(corporateContributor := Put(row.corporateContributor, StripOpt(cContrib)));
    var geog := FindGeographic(p.view.all(Tag("geographic")));
    row := row.(subjectGeographic := Put(row.subjectGeographic, TextOf(geog)));
  }

  /** Publisher, temporal range, note, ISBN, classification, URI, the record pair and the
      coordinates. */
  function Descriptive(p: Parsed, row: Row): Row
  {
    var rec := RecordPair(p.view);
    row.(publisher := Put(row.publisher, p.view.text(Tag("publisher"))),
         dateRange := Put(row.dateRange, p.view.text(Tag("temporal"))),
         notes := Put(row.notes, p.view.text(Tag("note"))),
         isbn := Put(row.isbn, FirstText(p.view.select(IsbnSel))),
         classification := Put(row.classification, p.view.text(Tag("classification"))),
         uri := Put(row.uri, FirstText(p.view.select(UriSel))),
         recordCreationDate := if rec.Some? then Some(rec.value.0) else row.recordCreationDate,
         recordOrigin := if rec.Some? then Some(rec.value.1) else row.recordOrigin,
         coordinates := Put(row.coordinates, p.view.text(Tag("cartographics"))))
  }

  method WriteDescriptive(p: Parsed, row0: Row) returns (row: Row)
    ensures row == Descriptive(p, row0)
  {
    row := row0;
    row := row.(publisher := Put(row.publisher, p.view.text(Tag("publisher"))));
    row := row.(dateRange := Put(row.dateRange, p.view.text(Tag("temporal"))));
    row := row.(notes := Put(row.notes, p.view.text(Tag("note"))));
    row := row.(isbn := Put(row.isbn, FirstText(p.view.select(IsbnSel))));
    row := row.(classification := Put(row.classification, p.view.text(Tag("classification"))));
    row := row.(uri := Put(row.uri, FirstText(p.view.select(UriSel))));
    var origin := p.view.find(Tag("recordOrigin"));
    var created := p.view.find(Tag("recordCreationDate"));
    if origin.Some? && created.Some? {
      row := row.(recordCreationDate := Some(Strip(GetText(created.value))),
                  recordOrigin := Some(Strip(GetText(origin.value))));
    }
    row := row.(coordinates := Put(row.coordinates, p.view.text(Tag("cartographics"))));
  }

  /** CreatorN_Given and CreatorN_Family: only the last personal creator, under the number
      of personal creators. */
  function Creators(p: Parsed, row: Row): Row
  {
    row.(creators := LastCreatorCells(row.creators, WithRole(p.view.select(PersonalNameSel), "creator")))
  }

  /** The personal-creator loops over the personal names. */
  method WriteCreators(names: Names, ps: seq<Element>) returns (r: Names)
    ensures r == LastCreatorCells(names, WithRole(ps, "creator"))
  {
    r := names;
    var pCreators := CollectCreators(ps);
    if |pCreators| > 0 {
      var pcCount, given, family := LastCreator(pCreators);
      r := WithPart(r, pcCount, Given, TextOf(given));
      r := WithPart(r, pcCount, Family, TextOf(family));
    }
  }

  /** The first personal contributor, and every personal subject under its own number. */
  function PersonalNames(p: Parsed, row: Row): Row
  {
    var np := ContributorParts(FirstWithRole(p.view.select(PersonalNameSel), "contributor"));
    row.(contributor1Given := Put(row.contributor1Given, np.given),
         contributor1Family := Put(row.contributor1Family, np.family),
         subjects := SubjectNames(row.subjects, p.view.select(PersonalSubjectSel)))
  }

  method WritePersonalNames(p: Parsed, row0: Row) returns (row: Row)
    ensures row == PersonalNames(p, row0)
  {
    row := row0;
    var contributor := FirstContributor(p.view.select(PersonalNameSel));
    if contributor.Some? {
      row := row.(contributor1Given := Put(row.contributor1Given, TextOf(GivenPart(contributor.value))));
      row := row.(contributor1Family := Put(row.contributor1Family, TextOf(FamilyPart(contributor.value))));
    }
    var subjects := WriteSubjectNames(row.subjects, p.view.select(PersonalSubjectSel));
    row := row.(subjects := subjects);
  }

  /** Genre with its authority, the resource type and the media type. */
  function GenreAndFormat(p: Parsed, row: Row): Row
  {
    var withGenre := match p.view.find(Tag("genre"))
      case None => row
      case Some(g) => row.(genre := Some(Strip(GetText(g))), genreAuthority := Some(GenreAuthorityOf(p.view)));
    withGenre.(resourceType := Put(withGenre.resourceType, p.view.text(Tag("typeOfResource"))),
         internetMediaType := Put(withGenre.internetMediaType, p.view.text(Tag("internetMediaType"))))
  }

  method WriteGenreAndFormat(p: Parsed, row0: Row) returns (row: Row)
    ensures row == GenreAndFormat(p, row0)
  {
    row := row0;
    var genre := p.view.find(Tag("genre"));
    if genre.Some? {
      var authority := if p.view.find(TagAttr("genre", "authority", "marcgt")).Some? then "marcgt" else "aat";
      row := row.(genre := Some(Strip(GetText(genre.value))), genreAuthority := Some(authority));
    }
    row := row.(resourceType := Put(row.resourceType, p.view.text(Tag("typeOfResource"))));
    row := row.(internetMediaType := Put(row.internetMediaType, p.view.text(Tag("internetMediaType"))));
  }

  /** LanguageN for the n-th <languageTerm>. */
  function LanguageColumns(p: Parsed, row: Row): Row
  {
    row.(languages := row.languages + Numbered(Texts(p.view.all(Tag("languageTerm")))))
  }

  method WriteLanguages(p: Parsed, row0: Row) returns (row: Row)
    ensures row == LanguageColumns(p, row0)
  {
    var languages := WriteNumbered(row0.languages, p.view.all(Tag("languageTerm")));
    row := row0.(languages := languages);
  }

  /** The access and local identifiers, the source, the three access conditions and the
      host item's title and identifier (these two unstripped). */
  function RightsAndHost(p: Parsed, row: Row): Row
  {
    row.(accessIdentifier := Put(row.accessIdentifier, p.view.text(TagAttr("identifier", "type", "access"))),
         localIdentifier := Put(row.localIdentifier, p.view.text(TagAttr("identifier", "type", "local"))),
         source := Put(row.source, p.view.text(Tag("physicalLocation"))),
         rights := Put(row.rights, p.view.text(TagAttr("accessCondition", "displayLabel", "Restricted"))),
         rightsStatement := Put(row.rightsStatement, p.view.text(TagAttr("accessCondition", "displayLabel", "Rights Statement"))),
         creativeCommonsURI := Put(row.creativeCommonsURI,
                                   p.view.text(TagAttr("accessCondition", "displayLabel", "Creative Commons license"))),
         relatedItemTitle := Put(row.relatedItemTitle, FirstRawText(p.view.select(HostTitleSel))),
         relatedItemPID := Put(row.relatedItemPID, FirstRawText(p.view.select(HostIdSel))))
  }

  method WriteRightsAndHost(p: Parsed, row0: Row) returns (row: Row)
    ensures row == RightsAndHost(p, row0)
  {
    row := row0;
    var ai := p.view.text(TagAttr("identifier", "type", "access"));
    row := row.(accessIdentifier := Put(row.accessIdentifier, ai));
    var li := p.view.text(TagAttr("identifier", "type", "local"));
    row := row.(localIdentifier := Put(row.localIdentifier, li));
    var src := p.view.text(Tag("physicalLocation"));
    row := row.(source := Put(row.source, src));
    var rights := p.view.text(TagAttr("accessCondition", "displayLabel", "Restricted"));
    row := row.(rights := Put(row.rights, rights));
    var rightsStmt := p.view.text(TagAttr("accessCondition", "displayLabel", "Rights Statement"));
    row := row.(rightsStatement := Put(row.rightsStatement, rightsStmt));
    var ccl := p.view.text(TagAttr("accessCondition", "displayLabel", "Creative Commons license"));
    row := row.(creativeCommonsURI := Put(row.creativeCommonsURI, ccl));
    var hostTitle := p.view.select(HostTitleSel);
    var hostPID := p.view.select(HostIdSel);
    row := row.(relatedItemTitle := Put(row.relatedItemTitle, FirstRawText(hostTitle)));
    row := row.(relatedItemPID := Put(row.relatedItemPID, FirstRawText(hostPID)));
  }

  // ---------------------------------------------------------------- one row

  /** The row the loop body writes from what it parsed, group after group, into row i,
      which nothing has written before. */
  function RowCells(i: nat, p: Parsed): Row
  {
    RightsAndHost(p, LanguageColumns(p, GenreAndFormat(p, PersonalNames(p, Creators(p,
      Descriptive(p, CorporateAndPlace(p, TopicColumns(p, Titles(p, Identification(i, p, EmptyRow))))))))))
  }

  /** The checks of the loop body, in the order it makes them: the date repair
      (ValueError), the file name (IndexError), the title (AttributeError) and the
      corporate names (AttributeError). */
  function ParsedOf(f: File): Result<Parsed>
  {
    var date :- RepairDate(DateIssued(f.soup));
    var ids :- RepoAndNum(f.path);
    var title :- TitleText(f.soup);
    var roles :- CorporateRoles(Select(f.soup, CorporateNameSel));
    Ok(Parsed(ViewOf(f.soup), date, ids.0, ids.1, title, roles))
  }

  /** The row the loop body writes for the file at index i, or the exception it raises. */
  function RowOf(i: nat, f: File): Result<Row>
  {
    var p :- ParsedOf(f);
    Ok(RowCells(i, p))
  }

  // ---------------------------------------------------------------- what one row holds

  /** The row's key reads back as its row number from 1, and PID and imageLink are built
      from repo and num. */
  lemma RowIdentifiers(i: nat, p: Parsed)
    ensures var row := RowCells(i, p);
      && row.dateCreated == Some(p.date)
      && row.key.Some? && AllDigits(row.key.value) && DecimalValue(row.key.value) == i + 1
      && row.pid == Some(Strip(p.repo + "_" + p.num))
      && row.imageLink.Some? && row.imageLink.value == ImageLinkPrefix + p.repo + "%3A" + p.num
  {
    DecimalRoundTrip(i + 1);
  }

  /** The title is always written: the stripped title followed by ", ca. " and the date
      when the date is approximate and real and the title has no "ca. ", and the title
      as it is otherwise; the extent is written exactly when the document has one, and
      kept whole when it has no ';'. */
  lemma RowTitleAndExtent(i: nat, p: Parsed)
    ensures var row := RowCells(i, p);
      && row.title.Some?
      && row.title.value ==
           (if HasApproximateDate(p.view) && p.date != NoDate && StrFind(p.title, "ca. ") == -1
            then Strip(p.title) + ", ca. " + p.date else p.title)
      && (row.title.value != p.title ==>
            HasApproximateDate(p.view) && p.date != NoDate && StrFind(row.title.value, "ca. ") != -1)
      && (row.extent.Some? <==> p.view.text(Tag("extent")).Some?)
      && (row.extent.Some? && ';' !in p.view.text(Tag("extent")).value ==>
            row.extent == p.view.text(Tag("extent")))
  {
    CaSuffixMarks(p.title, HasApproximateDate(p.view), p.date);
    if p.view.text(Tag("extent")).Some? {
      TruncateCases(p.view.text(Tag("extent")).value);
    }
  }

  /** recordCreationDate and recordOrigin are written together or not at all: exactly when
      the document has both. */
  lemma RowRecordPair(i: nat, p: Parsed)
    ensures var row := RowCells(i, p);
      && (row.recordCreationDate.Some? <==> row.recordOrigin.Some?)
      && (row.recordOrigin.Some? <==>
            p.view.find(Tag("recordOrigin")).Some? && p.view.find(Tag("recordCreationDate")).Some?)
  {
  }

  /** Genre and GenreAuthority are written together, exactly when there is a genre, and the
      authority is "marcgt" exactly when some genre carries that authority, else "aat". */
  lemma RowGenre(i: nat, p: Parsed)
    ensures var row := RowCells(i, p);
      && (row.genre.Some? <==> p.view.find(Tag("genre")).Some?)
      && (row.genreAuthority.Some? <==> row.genre.Some?)
      && (row.genreAuthority == Some("marcgt") <==>
            row.genre.Some? && p.view.find(TagAttr("genre", "authority", "marcgt")).Some?)
      && (row.genreAuthority.Some? ==> row.genreAuthority.value in {"marcgt", "aat"})
  {
  }

  /** The topic cells are those the topic loop writes, the language cells those the
      language loop writes. */
  lemma RowTopicCells(i: nat, p: Parsed, n: nat)
    ensures Get(RowCells(i, p).topics, n) == Get(Numbered(Texts(p.view.all(Tag("topic")))), n)
  {
  }

  lemma RowLanguageCells(i: nat, p: Parsed, n: nat)
    ensures Get(RowCells(i, p).languages, n) == Get(Numbered(Texts(p.view.all(Tag("languageTerm")))), n)
  {
  }

  /** Cell n of SubjectN_Topic holds the n-th topic, stripped, for n from 1 up to the
      number of topics; there are no others. */
  lemma RowTopics(i: nat, p: Parsed, n: nat)
    ensures var topics := p.view.all(Tag("topic"));
      Get(RowCells(i, p).topics, n) == if 1 <= n <= |topics| then Some(Strip(GetText(topics[n - 1]))) else None
  {
    RowTopicCells(i, p, n);
    NumberedTexts(p.view.all(Tag("topic")), n);
  }

  /** Cell n of LanguageN holds the n-th language term, stripped, for n from 1 up to the
      number of terms; there are no others. */
  lemma RowLanguages(i: nat, p: Parsed, n: nat)
    ensures var langs := p.view.all(Tag("languageTerm"));
      Get(RowCells(i, p).languages, n) == if 1 <= n <= |langs| then Some(Strip(GetText(langs[n - 1]))) else None
  {
    RowLanguageCells(i, p, n);
    NumberedTexts(p.view.all(Tag("languageTerm")), n);
  }

  /** Only the last personal creator is written, under the number of personal creators:
      no other creator cell has a value. */
  lemma RowCreators(i: nat, p: Parsed, key: (nat, PartKind))
    ensures var pc := WithRole(p.view.select(PersonalNameSel), "creator");
      Get(RowCells(i, p).creators, key) ==
        if pc != [] && key.0 == |pc| then PartOf(PartsOf(pc[|pc| - 1]), key.1) else None
  {
    RowCreatorCells(i, p, key);
    LastCreatorGet(WithRole(p.view.select(PersonalNameSel), "creator"), key);
  }

  lemma RowCreatorCells(i: nat, p: Parsed, key: (nat, PartKind))
    ensures Get(RowCells(i, p).creators, key) == Get(LastCreatorCells(map[], WithRole(p.view.select(PersonalNameSel), "creator")), key)
  {
  }

  /** Personal subject k (from 1) is written under number k, each part it has; there are
      no subject-name cells beyond the number of personal subjects. */
  lemma RowSubjectNames(i: nat, p: Parsed, key: (nat, PartKind))
    ensures var ns := p.view.select(PersonalSubjectSel);
      Get(RowCells(i, p).subjects, key) == if 1 <= key.0 <= |ns| then PartOf(PartsOf(ns[key.0 - 1]), key.1) else None
  {
    RowSubjectCells(i, p, key);
    SubjectNamesGet(p.view.select(PersonalSubjectSel), key);
  }

  /** The subject-name cells are those the subject-name loop writes. */
  lemma RowSubjectCells(i: nat, p: Parsed, key: (nat, PartKind))
    ensures Get(RowCells(i, p).subjects, key) == Get(SubjectNames(map[], p.view.select(PersonalSubjectSel)), key)
  {
  }

  /** The corporate cells hold the names the if/elif loop settled on, stripped: each is
      written exactly when a name was found, and holds text with no surrounding space. */
  lemma RowCorporate(i: nat, p: Parsed)
    ensures var row := RowCells(i, p);
      && (row.corporateCreator.Some? <==> p.roles.0.Some?)
      && (row.corporateContributor.Some? <==> p.roles.1.Some?)
      && (row.corporateCreator.Some? ==>
            row.corporateCreator.value == Strip(p.roles.0.value) && Strip(row.corporateCreator.value) == row.corporateCreator.value)
      && (row.corporateContributor.Some? ==>
            row.corporateContributor.value == Strip(p.roles.1.value)
            && Strip(row.corporateContributor.value) == row.corporateContributor.value)
  {
    if p.roles.0.Some? {
      StripIdempotent(p.roles.0.value);
    }
    if p.roles.1.Some? {
      StripIdempotent(p.roles.1.value);
    }
  }

  /** The contributor cells are those of the first contributor, if any. */
  lemma RowContributorCells(i: nat, p: Parsed)
    ensures var np := ContributorParts(FirstWithRole(p.view.select(PersonalNameSel), "contributor"));
      RowCells(i, p).contributor1Given == np.given && RowCells(i, p).contributor1Family == np.family
  {
  }

  /** Contributor1 holds the parts of the first personal name with a contributor role;
      without one, both cells stay empty. */
  lemma RowContributor(i: nat, p: Parsed)
    ensures var row := RowCells(i, p);
      var ps := p.view.select(PersonalNameSel);
      && ((forall k | 0 <= k < |ps| :: !HasRole(ps[k], "contributor")) ==>
            row.contributor1Given.None? && row.contributor1Family.None?)
      && (row.contributor1Given.Some? || row.contributor1Family.Some? ==>
            exists k | 0 <= k < |ps| ::
              && HasRole(ps[k], "contributor") && (forall j | 0 <= j < k :: !HasRole(ps[j], "contributor"))
              && row.contributor1Given == TextOf(GivenPart(ps[k]))
              && row.contributor1Family == TextOf(FamilyPart(ps[k])))
  {
    RowContributorCells(i, p);
    FirstWithRoleMeaning(p.view.select(PersonalNameSel), "contributor");
  }

  /** The loop body for the file at row index i: the checks, then every group in order. */
  method FillRow(i: nat, f: File) returns (r: Result<Row>)
    ensures r == RowOf(i, f)
  {
    var date := RepairDate(DateIssued(f.soup));
    if date.Err? {
      return Err(date.error);
    }
    var ids := RepoAndNum(f.path);
    if ids.Err? {
      return Err(ids.error);
    }
    var title := TitleText(f.soup);
    if title.Err? {
      return Err(title.error);
    }
    var roles := ChooseCorporateRoles(Select(f.soup, CorporateNameSel));
    if roles.Err? {
      return Err(roles.error);
    }
    var p := Parsed(ViewOf(f.soup), date.value, ids.value.0, ids.value.1, title.value, roles.value);
    var row := WriteIdentification(i, p, EmptyRow);
    row := WriteTitles(p, row);
    row := WriteTopics(p, row);
    row := WriteCorporateAndPlace(p, row);
    row := WriteDescriptive(p, row);
    var creators := WriteCreators(row.creators, p.view.select(PersonalNameSel));
    row := row.(creators := creators);
    row := WritePersonalNames(p, row);
    row := WriteGenreAndFormat(p, row);
    row := WriteLanguages(p, row);
    row := WriteRightsAndHost(p, row);
    r := Ok(row);
  }

  /** A row the loop body writes has the key i + 1 for row index i. */
  lemma RowKey(i: nat, f: File)
    requires RowOf(i, f).Ok?
    ensures RowOf(i, f).value.key == Some(NatToStr(i + 1))
  {
    RowIdentifiers(i, ParsedOf(f).value);
  }

  // ---------------------------------------------------------------- the frame

  /** The frame the loop fills for files, in order: rowOf(k, files[k]) as row k, or the
      exception of the first file for which rowOf raises one. */
  function BuildFrame(files: seq<File>, rowOf: (nat, File) -> Result<Row>): Result<Frame>
  {
    if files == [] then Ok(map[])
    else
      var df :- BuildFrame(files[..|files| - 1], rowOf);
      var row :- rowOf(|files| - 1, files[|files| - 1]);
      Ok(df[|files| - 1 := row])
  }

  /** Once a prefix of the files fails, the whole loop fails the same way. */
  lemma {:induction false} BuildFramePrefixError(files: seq<File>, rowOf: (nat, File) -> Result<Row>, k: nat)
    requires k <= |files| && BuildFrame(files[..k], rowOf).Err?
    ensures BuildFrame(files, rowOf) == BuildFrame(files[..k], rowOf)
    decreases |files| - k
  {
    if k < |files| {
      assert files[..k + 1][..k] == files[..k];
      BuildFramePrefixError(files, rowOf, k + 1);
    } else {
      assert files[..k] == files;
    }
  }

  /** The frame has a row at index k exactly for each file k, holding the row written for
      that file; it succeeds exactly when every file's row does. */
  lemma {:induction false} BuildFrameRows(files: seq<File>, rowOf: (nat, File) -> Result<Row>)
    ensures BuildFrame(files, rowOf).Ok? <==> forall k | 0 <= k < |files| :: rowOf(k, files[k]).Ok?
    ensures BuildFrame(files, rowOf).Ok? ==>
      && (forall k: nat :: k in BuildFrame(files, rowOf).value <==> k < |files|)
      && forall k | 0 <= k < |files| :: BuildFrame(files, rowOf).value[k] == rowOf(k, files[k]).value
  {
    if files != [] {
      var init := files[..|files| - 1];
      BuildFrameRows(init, rowOf);
      assert forall k | 0 <= k < |init| :: init[k] == files[k];
      if BuildFrame(files, rowOf).Ok? {
        var df := BuildFrame(init, rowOf).value;
        assert BuildFrame(files, rowOf).value == df[|init| := rowOf(|init|, files[|init|]).value];
      }
    }
  }

  /** A failed frame carries the exception of the first file whose row fails. */
  lemma {:induction false} BuildFrameError(files: seq<File>, rowOf: (nat, File) -> Result<Row>)
    requires BuildFrame(files, rowOf).Err?
    ensures exists k | 0 <= k < |files| ::
      && rowOf(k, files[k]) == Err(BuildFrame(files, rowOf).error)
      && forall j | 0 <= j < k :: rowOf(j, files[j]).Ok?
  {
    var init := files[..|files| - 1];
    assert forall k | 0 <= k < |init| :: init[k] == files[k];
    if BuildFrame(init, rowOf).Err? {
      BuildFrameError(init, rowOf);
    } else {
      BuildFrameRows(init, rowOf);
    }
  }

  /** One more file whose row succeeds adds that row under the next index. */
  lemma BuildFrameSnoc(files: seq<File>, rowOf: (nat, File) -> Result<Row>, i: nat, df: Frame, row: Row)
    requires i < |files| && BuildFrame(files[..i], rowOf) == Ok(df) && rowOf(i, files[i]) == Ok(row)
    ensures BuildFrame(files[..i + 1], rowOf) == Ok(df[i := row])
  {
    assert files[..i + 1][..i] == files[..i];
  }

  /** When row k written carries the key k + 1, so does row k of the frame. */
  lemma FrameKey(files: seq<File>, rowOf: (nat, File) -> Result<Row>, k: nat)
    requires BuildFrame(files, rowOf).Ok? && k < |files|
    requires rowOf(k, files[k]).Ok? ==> rowOf(k, files[k]).value.key == Some(NatToStr(k + 1))
    ensures k in BuildFrame(files, rowOf).value && BuildFrame(files, rowOf).value[k].key == Some(NatToStr(k + 1))
  {
    BuildFrameRows(files, rowOf);
  }

  /** Rows keyed by their index from 1 never share a key. */
  lemma FrameKeysDistinct(files: seq<File>, rowOf: (nat, File) -> Result<Row>, j: nat, k: nat)
    requires BuildFrame(files, rowOf).Ok? && j < |files| && k < |files| && j != k
    requires rowOf(j, files[j]).Ok? ==> rowOf(j, files[j]).value.key == Some(NatToStr(j + 1))
    requires rowOf(k, files[k]).Ok? ==> rowOf(k, files[k]).value.key == Some(NatToStr(k + 1))
    ensures var df := BuildFrame(files, rowOf).value;
      j in df && k in df && df[j].key != df[k].key
  {
    FrameKey(files, rowOf, j);
    FrameKey(files, rowOf, k);
    if NatToStr(j + 1) == NatToStr(k + 1) {
      NatToStrInjective(j + 1, k + 1);
    }
  }

  // ---------------------------------------------------------------- convert_to_csv

  /** How a conversion ends: the frame that would be saved, the hand-over of a folder of
      newspaper issues to the newspaper converter, or the exception that stops it. */
  datatype Outcome = Saved(frame: Frame) | NewspaperIssues | Raised(error: Error)

  /** The schema is chosen once, from the first file: an empty folder raises IndexError
      there, a newspaper issue first hands every file to the newspaper converter, and
      otherwise the frame is built row by row. */
  function Conversion(files: seq<File>): Outcome
  {
    if files == [] then Raised(IndexError)
    else if IsNewspaperIssue(files[0].soup) then NewspaperIssues
    else
      match BuildFrame(files, RowOf)
      case Ok(df) => Saved(df)
      case Err(e) => Raised(e)
  }

  /** The loop of convert_to_csv over the sorted files, with the row counter i. */
  method ConvertToCsv(files: seq<File>) returns (o: Outcome)
    ensures o == Conversion(files)
  {
    if |files| == 0 {
      return Raised(IndexError);
    }
    if IsNewspaperIssue(files[0].soup) {
      return NewspaperIssues;
    }
    var df: Frame := map[];
    var i := 0;
    while i < |files|
      invariant 0 <= i <= |files|
      invariant BuildFrame(files[..i], RowOf) == Ok(df)
    {
      var row := FillRow(i, files[i]);
      if row.Err? {
        assert files[..i + 1][..i] == files[..i];
        BuildFramePrefixError(files, RowOf, i + 1);
        return Raised(row.error);
      }
      BuildFrameSnoc(files, RowOf, i, df, row.value);
      df := df[i := row.value];
      i := i + 1;
    }
    assert files[..i] == files;
    o := Saved(df);
  }

  /** A saved frame comes from a folder whose first file is no newspaper issue, and it
      has one row per file, at indices 0 .. |files| - 1. */
  lemma ConversionSaved(files: seq<File>)
    requires Conversion(files).Saved?
    ensures |files| > 0 && !IsNewspaperIssue(files[0].soup)
    ensures forall k: nat :: k in Conversion(files).frame <==> k < |files|
  {
    BuildFrameRows(files, RowOf);
  }

  /** Row k of a saved frame has the key k + 1, and so no two rows share a key. */
  lemma ConversionKeys(files: seq<File>, j: nat, k: nat)
    requires Conversion(files).Saved? && j < |files| && k < |files|
    ensures var df := Conversion(files).frame;
      && k in df && df[k].key == Some(NatToStr(k + 1))
      && (j != k ==> j in df && df[j].key != df[k].key)
  {
    if RowOf(k, files[k]).Ok? {
      RowKey(k, files[k]);
    }
    if RowOf(j, files[j]).Ok? {
      RowKey(j, files[j]);
    }
    FrameKey(files, RowOf, k);
    if j != k {
      FrameKeysDistinct(files, RowOf, j, k);
    }
  }
}
