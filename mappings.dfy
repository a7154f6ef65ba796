/** mappings.py: one extractor per CSV column, each reading one parsed MODS document (or
    the file name, or the row index), the memoised extractors of the numbered columns
    with their module-level stores and reset, and the registry from column header to
    extractor. */
module Mappings {
  import opened Wrappers
  import opened PyStr
  import opened Soup
  import opened Dates
  import opened Logic

  // ---------------------------------------------------------------- generic lookups

  /** generic_find: the stripped text of the first <field>, or None. */
  function GenericFind(soup: Element, field: string): Option<string>
  {
    FindText(soup, Tag(field))
  }

  /** generic_select: the stripped text of the first element the selector picks, or None. */
  function GenericSelect(soup: Element, sel: seq<Query>): Option<string>
  {
    FirstText(Select(soup, sel))
  }

  /** generic_find answers None exactly when no element below the document has the tag,
      and otherwise the stripped text of the first such element in document order; that
      text is already stripped. */
  lemma GenericFindMeaning(soup: Element, field: string)
    ensures GenericFind(soup, field).None? <==> forall x | x in Descendants(soup) :: x.tag != field
    ensures GenericFind(soup, field).Some? ==>
      var d := Descendants(soup);
      && Strip(GenericFind(soup, field).value) == GenericFind(soup, field).value
      && exists k | 0 <= k < |d| ::
        && d[k].tag == field && GenericFind(soup, field).value == Strip(GetText(d[k]))
        && forall j | 0 <= j < k :: d[j].tag != field
  {
    FindMeaning(soup, Tag(field));
    var r := Find(soup, Tag(field));
    if r.Some? {
      StripIdempotent(GetText(r.value));
    }
  }

  /** generic_select answers None exactly when no chain of elements matches the selector;
      otherwise its text is the stripped text of the last element of the first matching
      chain in document order. */
  lemma GenericSelectMeaning(soup: Element, sel: seq<Query>)
    ensures GenericSelect(soup, sel).None? <==> forall k | 0 <= k < |Paths(soup)| :: !ChainMatches(Paths(soup)[k], sel)
    ensures GenericSelect(soup, sel).Some? ==>
      exists k | 0 <= k < |Paths(soup)| ::
        && ChainMatches(Paths(soup)[k], sel) && GenericSelect(soup, sel).value == Strip(GetText(Last(Paths(soup)[k])))
        && forall j | 0 <= j < k :: !ChainMatches(Paths(soup)[j], sel)
  {
    var ps := Paths(soup);
    SelectPathsMembers(ps, sel);
    var s := Select(soup, sel);
    if s != [] {
      SelectPathsFirst(ps, sel);
    } else {
      forall k | 0 <= k < |ps|
        ensures !ChainMatches(ps[k], sel)
      {
        assert Last(ps[k]) !in s;
      }
    }
  }

  /** A selector of one step (identifier[type="isbn"], identifier[type="uri"]) selects
      what generic_find with the same filter finds. */
  lemma GenericSelectOneStep(soup: Element, q: Query)
    ensures GenericSelect(soup, [q]) == FindText(soup, q)
  {
    SelectOneStep(soup, q);
  }

  // ---------------------------------------------------------------- date, key and file identifiers

  /** date_created: the stripped dateIssued, "n.d." without one, repaired when it has one
      of the two recognised shapes; ValueError when strptime rejects it. */
  function DateCreated(soup: Element): Result<string>
  {
    RepairDate(DateIssued(soup))
  }

  /** Without a dateIssued the date is the "n.d." placeholder, and a date that came out of
      date_created comes out of it again unchanged. */
  lemma DateCreatedMeaning(soup: Element)
    ensures Find(soup, Tag("dateIssued")).None? ==> DateCreated(soup) == Ok(NoDate)
    ensures DateCreated(soup).Ok? ==> RepairDate(DateCreated(soup).value) == DateCreated(soup)
  {
    if Find(soup, Tag("dateIssued")).None? {
      assert !MatchesPattern1(NoDate) by {
        assert NoDate[0] == 'n';
      }
      assert !MatchesPattern2(NoDate) by {
        assert |NoDate| == 4;
      }
    }
    RepairIdempotent(DateIssued(soup));
  }

  /** key: str(i + 1), the row number counted from 1. */
  function Key(i: nat): (r: string)
    ensures AllDigits(r) && DecimalValue(r) == i + 1
  {
    DecimalRoundTrip(i + 1);
    NatToStr(i + 1)
  }

  /** Different rows get different keys. */
  lemma KeyInjective(i: nat, j: nat)
    requires Key(i) == Key(j)
    ensures i == j
  {
    NatToStrInjective(i + 1, j + 1);
  }

  /** get_repo_num: the first two '_'-fields of the file's base name with rstrip('.xml');
      IndexError when the name has no '_'. */
  function GetRepoNum(filename: string): Result<(string, string)>
  {
    RepoAndNum(filename)
  }

  /** pid: repo and num joined by '_'. */
  function Pid(filename: string): Result<string>
  {
    var rn :- GetRepoNum(filename);
    Ok(rn.0 + "_" + rn.1)
  }

  /** image_link: the repository's object URL for repo:num, with ':' written %3A. */
  function ImageLink(filename: string): Result<string>
  {
    var rn :- GetRepoNum(filename);
    Ok(ImageLinkPrefix + rn.0 + "%3A" + rn.1)
  }

  /** A PID splits back on '_' into exactly repo and num, it exists exactly when the base
      name has a '_', and the image link exists exactly when the PID does and is built from
      the PID's two fields. */
  lemma PidAndImageLink(filename: string)
    ensures Pid(filename).Err? <==> '_' !in Stem(filename)
    ensures ImageLink(filename).Ok? <==> Pid(filename).Ok?
    ensures Pid(filename).Ok? ==>
      var fs := Split(Pid(filename).value, '_');
      && fs == [GetRepoNum(filename).value.0, GetRepoNum(filename).value.1]
      && ImageLink(filename).value == ImageLinkPrefix + fs[0] + "%3A" + fs[1]
  {
    if GetRepoNum(filename).Ok? {
      var rn := GetRepoNum(filename).value;
      var parts := [rn.0, rn.1];
      assert Join(parts, '_') == rn.0 + "_" + rn.1 by {
        assert Join(parts[1..], '_') == rn.1;
      }
      SplitJoin(parts, '_');
    }
  }

  /** A base name of the usual form repo_num.xml gives the PID repo_num. */
  lemma PidOfTwoFieldName(filename: string)
    requires |Split(Stem(filename), '_')| == 2
    ensures Pid(filename) == Ok(Stem(filename))
  {
    var f := Split(Stem(filename), '_');
    assert Join(f[1..], '_') == f[1];
  }

  // ---------------------------------------------------------------- titles, description and extent

  /** alternative_title: the first titleInfo[type="alternative"] > title, stripped. */
  function AlternativeTitle(soup: Element): Option<string>
  {
    GenericSelect(soup, AlternativeTitleSel)
  }

  /** title: the stripped first <title> (AttributeError without one), then date_created
      (whose ValueError propagates), then the "ca." rule. */
  function Title(soup: Element): Result<string>
  {
    var t :- TitleText(soup);
    var date :- DateCreated(soup);
    Ok(CaSuffix(t, HasApproximateDate(ViewOf(soup)), date))
  }

  /** title fails exactly when the document has no <title> or its date cannot be
      repaired; for an approximate real date and a title without "ca. " it returns the
      stripped title followed by ", ca. " and the date, and otherwise the stripped title
      itself; applying the rule again changes nothing. */
  lemma TitleMeaning(soup: Element)
    ensures Title(soup).Err? <==> Find(soup, Tag("title")).None? || DateCreated(soup).Err?
    ensures Title(soup).Ok? ==>
      var t := TitleText(soup).value;
      var date := DateCreated(soup).value;
      var approximate := HasApproximateDate(ViewOf(soup));
      && Title(soup).value == (if approximate && date != NoDate && StrFind(t, "ca. ") == -1 then t + ", ca. " + date else t)
      && (Title(soup).value == t ||
          (approximate && date != NoDate && StrFind(t, "ca. ") == -1 && StrFind(Title(soup).value, "ca. ") != -1))
      && CaSuffix(Title(soup).value, approximate, date) == Title(soup).value
  {
    if Title(soup).Ok? {
      var t := TitleText(soup).value;
      var date := DateCreated(soup).value;
      var approximate := HasApproximateDate(ViewOf(soup));
      assert Title(soup) == Ok(CaSuffix(t, approximate, date));
      StripIdempotent(GetText(Find(soup, Tag("title")).value));
      CaSuffixMarks(t, approximate, date);
      CaSuffixIdempotent(t, approximate, date);
    }
  }

  /** description: the stripped first <abstract>, or None. */
  function Description(soup: Element): Option<string>
  {
    GenericFind(soup, "abstract")
  }

  /** extent: the stripped first <extent> cut before its first ';', or None. */
  function Extent(soup: Element): Option<string>
  {
    ExtentText(ViewOf(soup))
  }

  /** The extent is a prefix of the stripped <extent> text: all of it without a ';', the
      part before the character preceding the first ';' otherwise (the last character
      dropped when the text starts with ';'). */
  lemma ExtentMeaning(soup: Element)
    ensures Extent(soup).None? <==> Find(soup, Tag("extent")).None?
    ensures Extent(soup).Some? ==>
      var t := GenericFind(soup, "extent").value;
      && Extent(soup).value <= t
      && (';' !in t ==> Extent(soup).value == t)
      && forall k | 0 < k < |t| && t[k] == ';' && ';' !in t[..k] :: Extent(soup).value == t[..k - 1]
  {
    if Extent(soup).Some? {
      var t := GenericFind(soup, "extent").value;
      TruncateCases(t);
      var semicol := StrFind(t, ";");
      if semicol > -1 {
        assert SliceTo(t, semicol - 1) <= t;
      }
    }
  }

  // ---------------------------------------------------------------- corporate names

  /** corporate_finder over the names `mods > name[type=corporate]`: the stripped namePart
      of the last name carrying role, None when no name carries it, AttributeError from
      the first name carrying it that has no namePart. */
  function LastCorporate(corps: seq<Element>, role: string): Result<Option<string>>
  {
    if corps == [] then Ok(None)
    else
      var prev :- LastCorporate(corps[..|corps| - 1], role);
      var corp := corps[|corps| - 1];
      if HasRole(corp, role) then
        var n :- NamePart(corp);
        Ok(Some(Strip(n)))
      else Ok(prev)
  }

  /** A failed prefix fails the whole scan the same way. */
  lemma {:induction false} LastCorporatePrefixError(corps: seq<Element>, role: string, k: nat)
    requires k <= |corps| && LastCorporate(corps[..k], role).Err?
    ensures LastCorporate(corps, role) == LastCorporate(corps[..k], role)
    decreases |corps| - k
  {
    if k < |corps| {
      assert corps[..k + 1][..k] == corps[..k];
      LastCorporatePrefixError(corps, role, k + 1);
    } else {
      assert corps[..k] == corps;
    }
  }

  /** One name more: a name without the role keeps the result, one with it replaces it by
      its namePart or fails. */
  lemma LastCorporateSnoc(corps: seq<Element>, role: string, k: nat)
    requires k < |corps| && LastCorporate(corps[..k], role).Ok?
    ensures LastCorporate(corps[..k + 1], role) ==
      if !HasRole(corps[k], role) then LastCorporate(corps[..k], role)
      else match NamePart(corps[k])
        case Err(e) => Err(e)
        case Ok(n) => Ok(Some(Strip(n)))
  {
    assert corps[..k + 1][..k] == corps[..k];
  }

  /** The scan of corporate_finder: every name with the role overwrites the result. */
  method CorporateFinder(soup: Element, role: string) returns (r: Result<Option<string>>)
    ensures r == LastCorporate(Select(soup, CorporateNameSel), role)
  {
    var corpCc := Select(soup, CorporateNameSel);
    var result: Option<string> := None;
    var k := 0;
    while k < |corpCc|
      invariant 0 <= k <= |corpCc|
      invariant LastCorporate(corpCc[..k], role) == Ok(result)
    {
      LastCorporateSnoc(corpCc, role, k);
      if HasRole(corpCc[k], role) {
        var part := Find(corpCc[k], Tag("namePart"));
        if part.None? {
          LastCorporatePrefixError(corpCc, role, k + 1);
          return Err(AttributeError);
        }
        result := Some(Strip(GetText(part.value)));
      }
      k := k + 1;
    }
    assert corpCc[..k] == corpCc;
    r := Ok(result);
  }

  /** The scan fails exactly when some name carries the role but has no namePart. */
  lemma {:induction false} LastCorporateError(corps: seq<Element>, role: string)
    ensures LastCorporate(corps, role).Err? <==>
      exists k | 0 <= k < |corps| :: HasRole(corps[k], role) && NamePart(corps[k]).Err?
  {
    if corps != [] {
      var init := corps[..|corps| - 1];
      LastCorporateError(init, role);
      assert forall k | 0 <= k < |init| :: init[k] == corps[k];
    }
  }

  /** A scan that succeeds finds nothing exactly when no name carries the role. */
  lemma {:induction false} LastCorporateNone(corps: seq<Element>, role: string)
    requires LastCorporate(corps, role).Ok?
    ensures LastCorporate(corps, role).value.None? <==> forall k | 0 <= k < |corps| :: !HasRole(corps[k], role)
  {
    if corps != [] {
      var init := corps[..|corps| - 1];
      LastCorporateNone(init, role);
      assert forall k | 0 <= k < |init| :: init[k] == corps[k];
    }
  }

  /** The last match wins: a name with the role after which no name carries it gives
      the scan its stripped namePart. */
  lemma {:induction false} LastCorporateFound(corps: seq<Element>, role: string, k: nat)
    requires LastCorporate(corps, role).Ok?
    requires k < |corps| && HasRole(corps[k], role) && forall j | k < j < |corps| :: !HasRole(corps[j], role)
    ensures NamePart(corps[k]).Ok? && LastCorporate(corps, role).value == Some(Strip(NamePart(corps[k]).value))
  {
    var init := corps[..|corps| - 1];
    if k < |corps| - 1 {
      assert init[k] == corps[k];
      assert forall j | k < j < |init| :: init[j] == corps[j];
      LastCorporateFound(init, role, k);
    }
  }

  /** When no corporate name carries both roles, the finder for each role agrees with
      the if/elif loop of the converter: it returns that loop's creator and contributor,
      stripped. (A name with both roles is only a creator to the loop, but both to the
      finder, which looks at each role on its own.) */
  lemma {:induction false} FinderAgreesWithElif(corps: seq<Element>)
    requires forall k | 0 <= k < |corps| :: !(HasRole(corps[k], "creator") && HasRole(corps[k], "contributor"))
    requires CorporateRoles(corps).Ok?
    ensures LastCorporate(corps, "creator") == Ok(StripOpt(CorporateRoles(corps).value.0))
    ensures LastCorporate(corps, "contributor") == Ok(StripOpt(CorporateRoles(corps).value.1))
  {
    if corps != [] {
      var init := corps[..|corps| - 1];
      assert Facts(corps)[..|corps| - 1] == Facts(init);
      FinderAgreesWithElif(init);
    }
  }

  // ---------------------------------------------------------------- geographic subject

  /** subject_geographic: the first <geographic> in document order with no
      <cartographics> below it, as the element itself (not its text). */
  function SubjectGeographic(soup: Element): Option<Element>
  {
    FirstGeographic(FindAll(soup, Tag("geographic")))
  }

  /** subject_geographic finds nothing exactly when every <geographic> has
      <cartographics> below it; what it finds is a <geographic> of the document without
      <cartographics>, and the first one in document order. */
  lemma SubjectGeographicMeaning(soup: Element)
    ensures var els := FindAll(soup, Tag("geographic"));
      && (SubjectGeographic(soup).None? <==> forall x | x in els :: HasDescendant(x, "cartographics"))
      && (SubjectGeographic(soup).Some? ==>
        var g := SubjectGeographic(soup).value;
        && g.tag == "geographic" && g in Descendants(soup) && !HasDescendant(g, "cartographics")
        && exists k | 0 <= k < |els| :: els[k] == g && forall j | 0 <= j < k :: HasDescendant(els[j], "cartographics"))
  {
    var els := FindAll(soup, Tag("geographic"));
    FilterMembers(Descendants(soup), Tag("geographic"));
    FirstGeographicMeaning(els);
    if SubjectGeographic(soup).Some? {
      var k :| 0 <= k < |els| && els[k] == SubjectGeographic(soup).value;
      assert els[k] in els;
    } else {
      forall x | x in els
        ensures HasDescendant(x, "cartographics")
      {
        var k :| 0 <= k < |els| && els[k] == x;
      }
    }
  }

  // ---------------------------------------------------------------- the memo stores

  /** What a numbering loop leaves in an empty store: key pre{n}post holds vals[n - 1]. */
  function Keyed(pre: string, post: string, vals: seq<string>): map<string, string>
  {
    if vals == [] then map[]
    else Keyed(pre, post, vals[..|vals| - 1])[NumKey(pre, |vals|, post) := vals[|vals| - 1]]
  }

  /** The key numbered n holds value n (counted from 1); no other number has a key. */
  lemma {:induction false} KeyedGet(pre: string, post: string, vals: seq<string>, n: nat)
    ensures Get(Keyed(pre, post, vals), NumKey(pre, n, post)) == if 1 <= n <= |vals| then Some(vals[n - 1]) else None
  {
    if vals != [] {
      var init := vals[..|vals| - 1];
      KeyedGet(pre, post, init, n);
      if n != |vals| && NumKey(pre, n, post) == NumKey(pre, |vals|, post) {
        NumberedNameInjective(pre, post, n, |vals|);
      }
    }
  }

  /** Every key of the store is a numbered key, numbered 1 to |vals|. */
  lemma {:induction false} KeyedKeys(pre: string, post: string, vals: seq<string>)
    ensures forall key | key in Keyed(pre, post, vals) :: exists n: nat | 1 <= n <= |vals| :: key == NumKey(pre, n, post)
  {
    if vals != [] {
      KeyedKeys(pre, post, vals[..|vals| - 1]);
    }
  }

  /** A store one value longer has the next numbered key set to that value. */
  lemma KeyedSnoc(pre: string, post: string, vals: seq<string>, v: string)
    ensures Keyed(pre, post, vals + [v]) == Keyed(pre, post, vals)[NumKey(pre, |vals| + 1, post) := v]
  {
    assert (vals + [v])[..|vals|] == vals;
  }

  /** The numbering loop of subject_topic and corporate_subject, into an empty store. */
  method NumberTexts(pre: string, post: string, els: seq<Element>) returns (store: map<string, string>)
    ensures store == Keyed(pre, post, Texts(els))
  {
    store := map[];
    var count := 0;
    while count < |els|
      invariant 0 <= count <= |els|
      invariant store == Keyed(pre, post, Texts(els[..count]))
    {
      TextsSnoc(els, count);
      KeyedSnoc(pre, post, Texts(els[..count]), Strip(GetText(els[count])));
      count := count + 1;
      store := store[NumKey(pre, count, post) := Strip(GetText(els[count - 1]))];
    }
    assert els[..count] == els;
  }

  /** The topic store of one document: SubjectN_Topic for its n-th <topic>. */
  function TopicStore(soup: Element): map<string, string>
  {
    Keyed("Subject", "_Topic", Texts(FindAll(soup, Tag("topic"))))
  }

  /** The corporate subject store: CorporateSubject_N for the n-th
      `subject > name[type=corporate]`. */
  function CorporateSubjectStore(soup: Element): map<string, string>
  {
    Keyed("CorporateSubject_", "", Texts(Select(soup, CorporateSubjectSel)))
  }

  /** A personal name populate_creators numbers: a creator with both a given and a
      family part. */
  predicate NumberedCreator(p: Element)
  {
    HasRole(p, "creator") && GivenPart(p).Some? && FamilyPart(p).Some?
  }

  /** The namePart of the given kind. */
  function PartElement(p: Element, part: PartKind): Option<Element>
  {
    match part
    case Given => GivenPart(p)
    case Family => FamilyPart(p)
  }

  /** The personal names populate_creators numbers, in order. */
  function NumberedCreators(ps: seq<Element>): seq<Element>
  {
    if ps == [] then []
    else
      var init := NumberedCreators(ps[..|ps| - 1]);
      if NumberedCreator(ps[|ps| - 1]) then init + [ps[|ps| - 1]] else init
  }

  /** The numbered names are exactly the creators with both parts, and no more than the
      names there are. */
  lemma {:induction false} NumberedCreatorsMeaning(ps: seq<Element>)
    ensures forall x :: x in NumberedCreators(ps) <==> x in ps && NumberedCreator(x)
    ensures |NumberedCreators(ps)| <= |ps|
  {
    if ps != [] {
      NumberedCreatorsMeaning(ps[..|ps| - 1]);
      assert forall x :: x in ps <==> x in ps[..|ps| - 1] || x == ps[|ps| - 1];
    }
  }

  /** The stripped texts of one part of the numbered creators, in order. */
  function CreatorTexts(ps: seq<Element>, part: PartKind): seq<string>
  {
    if ps == [] then []
    else
      var init := CreatorTexts(ps[..|ps| - 1], part);
      var p := ps[|ps| - 1];
      if NumberedCreator(p) then init + [Strip(GetText(PartElement(p, part).value))] else init
  }

  /** Text n of a part is that part of the n-th numbered creator: the given and the
      family text at one index come from the same name. */
  lemma {:induction false} CreatorTextsAt(ps: seq<Element>, part: PartKind, n: nat)
    ensures |CreatorTexts(ps, part)| == |NumberedCreators(ps)|
    ensures n < |NumberedCreators(ps)| ==>
      && NumberedCreator(NumberedCreators(ps)[n])
      && TextOf(PartElement(NumberedCreators(ps)[n], part)) == Some(CreatorTexts(ps, part)[n])
  {
    if ps != [] {
      CreatorTextsAt(ps[..|ps| - 1], part, n);
    }
  }

  /** The store of one part written for the names ps: CreatorN_Given or CreatorN_Family. */
  function CreatorKeyed(ps: seq<Element>, part: PartKind): map<string, string>
  {
    Keyed("Creator", "_" + PartText(part), CreatorTexts(ps, part))
  }

  function CreatorStore(soup: Element, part: PartKind): map<string, string>
  {
    CreatorKeyed(Select(soup, PersonalNameSel), part)
  }

  /** The creator stores filled from an empty start: CreatorN_Given and CreatorN_Family
      exist for exactly the numbers 1 .. the count of creators with both parts, the same
      numbers for both parts, and hold the parts of the n-th such creator. */
  lemma CreatorStoreGet(soup: Element, part: PartKind, n: nat)
    ensures var numbered := NumberedCreators(Select(soup, PersonalNameSel));
      Get(CreatorStore(soup, part), MultiHdgMkr("Creator", n, PartText(part))) ==
        if 1 <= n <= |numbered| then TextOf(PartElement(numbered[n - 1], part)) else None
  {
    var ps := Select(soup, PersonalNameSel);
    KeyedGet("Creator", "_" + PartText(part), CreatorTexts(ps, part), n);
    if n >= 1 {
      CreatorTextsAt(ps, part, n - 1);
    } else {
      CreatorTextsAt(ps, part, 0);
    }
  }

  /** One name more writes the next numbered key of its part into the store, if the name
      is numbered at all. */
  lemma PopulateStep(base: map<string, string>, ps: seq<Element>, k: nat, part: PartKind)
    requires k < |ps|
    ensures |CreatorTexts(ps[..k + 1], part)| == |CreatorTexts(ps[..k], part)| + if NumberedCreator(ps[k]) then 1 else 0
    ensures base + CreatorKeyed(ps[..k + 1], part) ==
      if NumberedCreator(ps[k]) then
        (base + CreatorKeyed(ps[..k], part))[MultiHdgMkr("Creator", |CreatorTexts(ps[..k], part)| + 1, PartText(part))
          := Strip(GetText(PartElement(ps[k], part).value))]
      else base + CreatorKeyed(ps[..k], part)
  {
    assert ps[..k + 1][..k] == ps[..k];
    if NumberedCreator(ps[k]) {
      var v := Strip(GetText(PartElement(ps[k], part).value));
      KeyedSnoc("Creator", "_" + PartText(part), CreatorTexts(ps[..k], part), v);
      StoreUpdateUnion(base, CreatorKeyed(ps[..k], part),
        MultiHdgMkr("Creator", |CreatorTexts(ps[..k], part)| + 1, PartText(part)), v);
    }
  }

  /** Writing a key after a union is writing it into the later map. */
  lemma StoreUpdateUnion(a: map<string, string>, b: map<string, string>, k: string, v: string)
    ensures (a + b)[k := v] == a + b[k := v]
  {
  }

  /** The topic store of a document: SubjectN_Topic holds the stripped text of its n-th
      <topic>, for n from 1 to the number of topics, and no other number has a key. */
  lemma TopicStoreGet(soup: Element, n: nat)
    ensures var tops := FindAll(soup, Tag("topic"));
      Get(TopicStore(soup), NumKey("Subject", n, "_Topic")) ==
        if 1 <= n <= |tops| then Some(Strip(GetText(tops[n - 1]))) else None
  {
    KeyedGet("Subject", "_Topic", Texts(FindAll(soup, Tag("topic"))), n);
  }

  /** The corporate subject store: CorporateSubject_N holds the stripped text of the n-th
      `subject > name[type=corporate]`, and no other number has a key. */
  lemma CorporateSubjectStoreGet(soup: Element, n: nat)
    ensures var corps := Select(soup, CorporateSubjectSel);
      Get(CorporateSubjectStore(soup), NumKey("CorporateSubject_", n, "")) ==
        if 1 <= n <= |corps| then Some(Strip(GetText(corps[n - 1]))) else None
  {
    KeyedGet("CorporateSubject_", "", Texts(Select(soup, CorporateSubjectSel)), n);
  }

  // ---------------------------------------------------------------- the registry

  /** The extractors the registry holds. The numbered ones carry their number. */
  datatype Extractor =
    | DateCreatedOf | KeyOf | PidOf | ImageLinkOf | AlternativeTitleOf | TitleOf
    | DescriptionOf | ExtentOf | SubjectTopicOf(n: nat) | CorporateSubjectOf(n: nat)
    | CorporateCreatorOf | CorporateContributorOf | SubjectGeographicOf
    | PublisherOriginalOf | DateRangeOf | NotesOf | IsbnOf | ClassificationOf | UriOf
    | RecordOriginOf | RecordCreationDateOf | CoordinatesOf
    | CreatorFamilyOf(n: nat) | CreatorGivenOf(n: nat)

  /** What an extractor returns: a text or nothing, or for subject_geographic the element
      itself. */
  datatype Value = Text(text: Option<string>) | Node(node: Option<Element>)

  /** mappings: column header to extractor, in the order of the dictionary. */
  const Registry: seq<(string, Extractor)> := [
    ("DateCreated", DateCreatedOf), ("key", KeyOf), ("PID", PidOf), ("imageLink", ImageLinkOf),
    ("AlternativeTitle", AlternativeTitleOf), ("Title", TitleOf), ("Description", DescriptionOf),
    ("Extent", ExtentOf),
    ("Subject1_Topic", SubjectTopicOf(1)), ("Subject2_Topic", SubjectTopicOf(2)),
    ("Subject3_Topic", SubjectTopicOf(3)), ("Subject4_Topic", SubjectTopicOf(4)),
    ("Subject5_Topic", SubjectTopicOf(5)),
    ("CorporateSubject_1", CorporateSubjectOf(1)), ("CorporateSubject_2", CorporateSubjectOf(2)),
    ("CorporateCreator", CorporateCreatorOf), ("CorporateContributor", CorporateContributorOf),
    ("Subject_Geographic", SubjectGeographicOf), ("Publisher_Original", PublisherOriginalOf),
    ("DateRange", DateRangeOf), ("Notes", NotesOf), ("ISBN", IsbnOf),
    ("Classification", ClassificationOf), ("URI", UriOf), ("recordOrigin", RecordOriginOf),
    ("recordCreationDate", RecordCreationDateOf), ("Coordinates", CoordinatesOf),
    ("Creator1_Family", CreatorFamilyOf(1)), ("Creator1_Given", CreatorGivenOf(1)),
    ("Creator2_Family", CreatorFamilyOf(2)), ("Creator2_Given", CreatorGivenOf(2)),
    ("Creator3_Family", CreatorFamilyOf(3)), ("Creator3_Given", CreatorGivenOf(3))
  ]

  /** The store key a memoised extractor looks up. */
  function Field(e: Extractor): string
  {
    match e
    case SubjectTopicOf(n) => NumKey("Subject", n, "_Topic")
    case CorporateSubjectOf(n) => NumKey("CorporateSubject_", n, "")
    case CreatorFamilyOf(n) => MultiHdgMkr("Creator", n, "Family")
    case CreatorGivenOf(n) => MultiHdgMkr("Creator", n, "Given")
    case _ => ""
  }

  /** The extractors that read a module-level store. */
  predicate Memoised(e: Extractor)
  {
    e.SubjectTopicOf? || e.CorporateSubjectOf? || e.CreatorFamilyOf? || e.CreatorGivenOf?
  }

  /** The store a memoised extractor reads, as this document fills it. */
  function StoreOf(e: Extractor, soup: Element): map<string, string>
    requires Memoised(e)
  {
    match e
    case SubjectTopicOf(_) => TopicStore(soup)
    case CorporateSubjectOf(_) => CorporateSubjectStore(soup)
    case CreatorFamilyOf(_) => CreatorStore(soup, Family)
    case CreatorGivenOf(_) => CreatorStore(soup, Given)
  }

  /** What an extractor without a store returns. key takes the row index, PID and
      imageLink the file name, every other entry the soup. */
  function Plain(e: Extractor, soup: Element, filename: string, i: nat): Result<Value>
    requires !Memoised(e)
  {
    match e
    case DateCreatedOf => var d :- DateCreated(soup); Ok(Text(Some(d)))
    case KeyOf => Ok(Text(Some(Key(i))))
    case PidOf => var s :- Pid(filename); Ok(Text(Some(s)))
    case ImageLinkOf => var s :- ImageLink(filename); Ok(Text(Some(s)))
    case AlternativeTitleOf => Ok(Text(AlternativeTitle(soup)))
    case TitleOf => var t :- Title(soup); Ok(Text(Some(t)))
    case DescriptionOf => Ok(Text(Description(soup)))
    case ExtentOf => Ok(Text(Extent(soup)))
    case CorporateCreatorOf => var c :- LastCorporate(Select(soup, CorporateNameSel), "creator"); Ok(Text(c))
    case CorporateContributorOf => var c :- LastCorporate(Select(soup, CorporateNameSel), "contributor"); Ok(Text(c))
    case SubjectGeographicOf => Ok(Node(SubjectGeographic(soup)))
    case PublisherOriginalOf => Ok(Text(GenericFind(soup, "publisher")))
    case DateRangeOf => Ok(Text(GenericFind(soup, "temporal")))
    case NotesOf => Ok(Text(GenericFind(soup, "note")))
    case IsbnOf => Ok(Text(GenericSelect(soup, IsbnSel)))
    case ClassificationOf => Ok(Text(GenericFind(soup, "classification")))
    case UriOf => Ok(Text(GenericSelect(soup, UriSel)))
    case RecordOriginOf => Ok(Text(GenericFind(soup, "recordOrigin")))
    case RecordCreationDateOf => Ok(Text(GenericFind(soup, "recordCreationDate")))
    case CoordinatesOf => Ok(Text(GenericFind(soup, "cartographics")))
  }

  /** What an extractor returns for a document when its store starts empty. */
  function Fresh(e: Extractor, soup: Element, filename: string, i: nat): Result<Value>
  {
    if Memoised(e) then Ok(Text(Get(StoreOf(e, soup), Field(e)))) else Plain(e, soup, filename, i)
  }

  /** Merging a store into itself, or into an empty one, leaves it as it is. */
  lemma MergeSame(m: map<string, string>)
    ensures m + m == m && map[] + m == m
  {
  }

  /** The module-level stores of mappings.py. Each is filled on the first lookup that
      finds it empty and kept until reset. */
  class Stores {
    var subjectTopic: map<string, string>
    var corporateSubject: map<string, string>
    var creatorFamily: map<string, string>
    var creatorGiven: map<string, string>

    /** The stores as the module starts: all empty. */
    constructor ()
      ensures subjectTopic == map[] && corporateSubject == map[]
      ensures creatorFamily == map[] && creatorGiven == map[]
    {
      subjectTopic := map[];
      corporateSubject := map[];
      creatorFamily := map[];
      creatorGiven := map[];
    }

    /** subject_topic: fill the topic store from this document if it is empty, then
        look the field up. A store left from an earlier document is used as it is. */
    method SubjectTopic(soup: Element, field: string) returns (r: Option<string>)
      modifies this
      ensures old(subjectTopic) == map[] ==> subjectTopic == TopicStore(soup)
      ensures old(subjectTopic) != map[] ==> subjectTopic == old(subjectTopic)
      ensures corporateSubject == old(corporateSubject)
      ensures creatorFamily == old(creatorFamily) && creatorGiven == old(creatorGiven)
      ensures r == Get(subjectTopic, field)
    {
      if |subjectTopic| == 0 {
        var topTags := FindAll(soup, Tag("topic"));
        subjectTopic := NumberTexts("Subject", "_Topic", topTags);
      }
      r := Get(subjectTopic, field);
    }

    /** corporate_subject, the same way over `subject > name[type=corporate]`. */
    method CorporateSubject(soup: Element, field: string) returns (r: Option<string>)
      modifies this
      ensures old(corporateSubject) == map[] ==> corporateSubject == CorporateSubjectStore(soup)
      ensures old(corporateSubject) != map[] ==> corporateSubject == old(corporateSubject)
      ensures subjectTopic == old(subjectTopic)
      ensures creatorFamily == old(creatorFamily) && creatorGiven == old(creatorGiven)
      ensures r == Get(corporateSubject, field)
    {
      if |corporateSubject| == 0 {
        var corpSub := Select(soup, CorporateSubjectSel);
        corporateSubject := NumberTexts("CorporateSubject_", "", corpSub);
      }
      r := Get(corporateSubject, field);
    }

    /** populate_creators: number the creators with both parts from 1, writing both
        creator stores (over whatever they already hold). */
    method PopulateCreators(soup: Element)
      modifies this
      ensures creatorGiven == old(creatorGiven) + CreatorStore(soup, Given)
      ensures creatorFamily == old(creatorFamily) + CreatorStore(soup, Family)
      ensures subjectTopic == old(subjectTopic) && corporateSubject == old(corporateSubject)
    {
      var pers := Select(soup, PersonalNameSel);
      var x := 1;
      var k := 0;
      while k < |pers|
        invariant 0 <= k <= |pers|
        invariant x == |CreatorTexts(pers[..k], Given)| + 1 == |CreatorTexts(pers[..k], Family)| + 1
        invariant creatorGiven == old(creatorGiven) + CreatorKeyed(pers[..k], Given)
        invariant creatorFamily == old(creatorFamily) + CreatorKeyed(pers[..k], Family)
        invariant subjectTopic == old(subjectTopic) && corporateSubject == old(corporateSubject)
      {
        var p := pers[k];
        PopulateStep(old(creatorGiven), pers, k, Given);
        PopulateStep(old(creatorFamily), pers, k, Family);
        if HasRole(p, "creator") {
          var given := GivenPart(p);
          var family := FamilyPart(p);
          if given.Some? && family.Some? {
            creatorGiven := creatorGiven[MultiHdgMkr("Creator", x, "Given") := Strip(GetText(given.value))];
            creatorFamily := creatorFamily[MultiHdgMkr("Creator", x, "Family") := Strip(GetText(family.value))];
            x := x + 1;
          }
        }
        k := k + 1;
      }
      assert pers[..k] == pers;
    }

    /** creator_family: populate both creator stores if the family store is empty, then
        look the field up. */
    method CreatorFamily(soup: Element, field: string) returns (r: Option<string>)
      modifies this
      ensures old(creatorFamily) == map[] ==>
        creatorFamily == CreatorStore(soup, Family) && creatorGiven == old(creatorGiven) + CreatorStore(soup, Given)
      ensures old(creatorFamily) != map[] ==> creatorFamily == old(creatorFamily) && creatorGiven == old(creatorGiven)
      ensures subjectTopic == old(subjectTopic) && corporateSubject == old(corporateSubject)
      ensures r == Get(creatorFamily, field)
    {
      if |creatorFamily| == 0 {
        PopulateCreators(soup);
      }
      r := Get(creatorFamily, field);
    }

    /** creator_given: populate both creator stores if the given store is empty, then
        look the field up. */
    method CreatorGiven(soup: Element, field: string) returns (r: Option<string>)
      modifies this
      ensures old(creatorGiven) == map[] ==>
        creatorGiven == CreatorStore(soup, Given) && creatorFamily == old(creatorFamily) + CreatorStore(soup, Family)
      ensures old(creatorGiven) != map[] ==> creatorGiven == old(creatorGiven) && creatorFamily == old(creatorFamily)
      ensures subjectTopic == old(subjectTopic) && corporateSubject == old(corporateSubject)
      ensures r == Get(creatorGiven, field)
    {
      if |creatorGiven| == 0 {
        PopulateCreators(soup);
      }
      r := Get(creatorGiven, field);
    }

    /** Every store is empty or holds what this document puts there. */
    predicate FilledFrom(soup: Element)
      reads this
    {
      && (subjectTopic == map[] || subjectTopic == TopicStore(soup))
      && (corporateSubject == map[] || corporateSubject == CorporateSubjectStore(soup))
      && (creatorFamily == map[] || creatorFamily == CreatorStore(soup, Family))
      && (creatorGiven == map[] || creatorGiven == CreatorStore(soup, Given))
    }

    /** A subject registry entry applied: its store is filled if empty, then its field
        is looked up. */
    method SubjectLookup(e: Extractor, soup: Element) returns (t: Option<string>)
      requires e.SubjectTopicOf? || e.CorporateSubjectOf?
      modifies this
      ensures old(FilledFrom(soup)) ==> FilledFrom(soup) && t == Get(StoreOf(e, soup), Field(e))
    {
      if e.SubjectTopicOf? {
        t := SubjectTopic(soup, Field(e));
      } else {
        t := CorporateSubject(soup, Field(e));
      }
    }

    /** A CreatorN_Family entry applied: both creator stores are populated if the family
        store is empty, then the field is looked up. */
    method FamilyLookup(e: Extractor, soup: Element) returns (t: Option<string>)
      requires e.CreatorFamilyOf?
      modifies this
      ensures old(FilledFrom(soup)) ==> FilledFrom(soup) && t == Get(StoreOf(e, soup), Field(e))
    {
      MergeSame(CreatorStore(soup, Given));
      t := CreatorFamily(soup, Field(e));
    }

    /** A CreatorN_Given entry applied, the same way from the given store. */
    method GivenLookup(e: Extractor, soup: Element) returns (t: Option<string>)
      requires e.CreatorGivenOf?
      modifies this
      ensures old(FilledFrom(soup)) ==> FilledFrom(soup) && t == Get(StoreOf(e, soup), Field(e))
    {
      MergeSame(CreatorStore(soup, Family));
      t := CreatorGiven(soup, Field(e));
    }

    /** A registry entry applied. While the stores hold nothing from another document,
        every lookup returns what a fresh one does and keeps that so; an entry without a
        store changes none. */
    method Extract(e: Extractor, soup: Element, filename: string, i: nat) returns (r: Result<Value>)
      modifies this
      ensures old(FilledFrom(soup)) ==> FilledFrom(soup) && r == Fresh(e, soup, filename, i)
      ensures !Memoised(e) ==> r == Fresh(e, soup, filename, i) && unchanged(this)
    {
      if e.SubjectTopicOf? || e.CorporateSubjectOf? {
        var t := SubjectLookup(e, soup);
        r := Ok(Text(t));
      } else if e.CreatorFamilyOf? {
        var t := FamilyLookup(e, soup);
        r := Ok(Text(t));
      } else if e.CreatorGivenOf? {
        var t := GivenLookup(e, soup);
        r := Ok(Text(t));
      } else if e.CorporateCreatorOf? || e.CorporateContributorOf? {
        var c := CorporateFinder(soup, if e.CorporateCreatorOf? then "creator" else "contributor");
        r := if c.Ok? then Ok(Text(c.value)) else Err(c.error);
      } else {
        r := Plain(e, soup, filename, i);
      }
    }

    /** reset: clear all four stores before the next document. */
    method Reset()
      modifies this
      ensures subjectTopic == map[] && corporateSubject == map[]
      ensures creatorFamily == map[] && creatorGiven == map[]
    {
      subjectTopic := map[];
      corporateSubject := map[];
      creatorFamily := map[];
      creatorGiven := map[];
    }
  }
}
