/**
 * The exam table: five exams per page, the page slice, the page/modal state
 * its handlers update, and the pure helpers that choose badge colours and
 * format durations.
 */
module ExamenesTable {
  import opened Wrappers
  import opened Text
  import opened TypesTable
  import Pagination

  const ItemsPerPage: nat := 5

  // ---------------------------------------------------------------------------
  // Duration

  /** `formatDuration`: "N/A" for a missing or zero duration, otherwise
      "<h>h <m>m" from one hour on and "<m>m" below. */
  function FormatDuration(minutes: Option<nat>): (r: string)
    ensures r == "N/A" <==> minutes.None? || minutes.value == 0
    ensures r != "N/A" ==> |r| >= 2 && r[|r| - 1] == 'm' && IsDigit(r[0])
  {
    if minutes.None? || minutes.value == 0 then "N/A"
    else
      var hours := minutes.value / 60;
      var mins := minutes.value % 60;
      var r := if hours > 0 then NatToDecimal(hours) + "h " + NatToDecimal(mins) + "m"
               else NatToDecimal(mins) + "m";
      assert r[|r| - 1] != "N/A"[2];
      r
  }

  /** Reads a formatted duration back into minutes; anything else gives None. */
  function ParseDuration(s: string): Option<nat> {
    if |s| == 0 || s[|s| - 1] != 'm' then None
    else
      var body := s[..|s| - 1];
      match IndexOf(body, 'h')
      case None => ParseDecimal(body)
      case Some(i) =>
        if i + 1 < |body| && body[i + 1] == ' ' then
          match (ParseDecimal(body[..i]), ParseDecimal(body[i + 2..]))
          case (Some(h), Some(m)) => if m < 60 then Some(60 * h + m) else None
          case _ => None
        else None
  }

  lemma NoLetterInDecimal(n: nat, c: char)
    requires !IsDigit(c)
    ensures IndexOf(NatToDecimal(n), c).None?
  {
  }

  /** A positive duration is printed so that it reads back exactly: the hours
      and the minutes below 60 recombine to the input. */
  lemma FormatDurationRoundTrip(m: nat)
    requires m > 0
    ensures ParseDuration(FormatDuration(Some(m))) == Some(m)
  {
    var h, mins := m / 60, m % 60;
    DecimalRoundTrip(h);
    DecimalRoundTrip(mins);
    var dm := NatToDecimal(mins);
    NoLetterInDecimal(mins, 'h');
    var s := FormatDuration(Some(m));
    if h > 0 {
      var dh := NatToDecimal(h);
      NoLetterInDecimal(h, 'h');
      var body := dh + "h " + dm;
      assert s == body + "m";
      assert s[..|s| - 1] == body;
      assert body[..|dh|] == dh;
      assert body[|dh| + 2..] == dm;
      assert body[|dh|] == 'h';
      IndexOfFirst(body, 'h', |dh|);
    } else {
      assert s[..|s| - 1] == dm;
    }
  }

  /** "N/A" stands for a missing or zero duration and reads back as nothing. */
  lemma FormatDurationAbsent(minutes: Option<nat>)
    ensures FormatDuration(minutes) == "N/A" <==> minutes.None? || minutes.value == 0
    ensures ParseDuration("N/A") == None
  {
    if minutes.Some? && minutes.value > 0 {
      var s := FormatDuration(minutes);
      assert s[|s| - 1] == 'm';
    }
  }

  /** The hours part is printed exactly from one hour on. */
  lemma FormatDurationShowsHours(m: nat)
    requires m > 0
    ensures IndexOf(FormatDuration(Some(m)), 'h').Some? <==> m >= 60
  {
    var s := FormatDuration(Some(m));
    NoLetterInDecimal(m % 60, 'h');
    if m >= 60 {
      var dh := NatToDecimal(m / 60);
      assert s[|dh|] == 'h';
    } else {
      assert s == NatToDecimal(m % 60) + "m";
    }
  }

  // ---------------------------------------------------------------------------
  // Badge colours

  /** `getStatusColor`: a case-insensitive search for finished words, then for
      in-progress words; a missing or empty status is an error. */
  function StatusColor(estado: Option<string>): (r: BadgeColor)
    ensures r != Info
    ensures estado.None? || estado.value == "" ==> r == Error
  {
    if estado.None? || estado.value == "" then Error
    else
      var estadoLower := Lower(estado.value);
      if Contains(estadoLower, "completado") || Contains(estadoLower, "finalizado")
         || Contains(estadoLower, "aprobado") then Success
      else if Contains(estadoLower, "pendiente") || Contains(estadoLower, "en curso")
              || Contains(estadoLower, "progreso") then Warning
      else Error
  }

  /** The colour does not depend on the case of the ASCII letters. */
  lemma StatusColorIgnoresCase(s: string)
    ensures StatusColor(Some(Upper(s))) == StatusColor(Some(s))
    ensures StatusColor(Some(Lower(s))) == StatusColor(Some(s))
  {
    LowerOfUpper(s);
    LowerIdempotent(s);
  }

  /** A missing or empty status is an error. */
  lemma StatusColorAbsent()
    ensures StatusColor(None) == Error && StatusColor(Some("")) == Error
  {
  }

  /** Example: "Examen Aprobado" gives success. */
  lemma StatusColorFinishedExample()
    ensures StatusColor(Some("Examen Aprobado")) == Success
  {
    assert Lower("Examen Aprobado") == "examen aprobado";
    assert OccursAt("examen aprobado", "aprobado", 7);
  }

  /** Finished words are looked for first, so they win over in-progress words. */
  lemma StatusColorPrecedence(s: string, w: string)
    requires w in ["completado", "finalizado", "aprobado"]
    requires Contains(Lower(s), w)
    ensures StatusColor(Some(s)) == Success
  {
  }

  /** A lower-cased status holds none of the finished words. */
  predicate NoFinishedWord(t: string) {
    !Contains(t, "completado") && !Contains(t, "finalizado") && !Contains(t, "aprobado")
  }

  /** An in-progress word with no finished word gives a warning. */
  lemma StatusColorInProgress(s: string, w: string)
    requires w in ["pendiente", "en curso", "progreso"]
    requires Contains(Lower(s), w)
    requires NoFinishedWord(Lower(s))
    ensures StatusColor(Some(s)) == Warning
  {
  }

  /** A status holding none of the six words is an error. */
  lemma StatusColorNoWord(s: string)
    requires NoFinishedWord(Lower(s))
    requires !Contains(Lower(s), "pendiente") && !Contains(Lower(s), "en curso")
             && !Contains(Lower(s), "progreso")
    ensures StatusColor(Some(s)) == Error
  {
  }

  /** Example: "En Progreso" gives a warning. */
  lemma StatusColorInProgressExample()
    ensures StatusColor(Some("En Progreso")) == Warning
  {
    var s := "en progreso";
    assert Lower("En Progreso") == s;
    assert OccursAt(s, "progreso", 3);
    MissingCharNotContained(s, "completado", 0);
    MissingCharNotContained(s, "finalizado", 0);
    MissingCharNotContained(s, "aprobado", 0);
  }

  /** Example: "Cancelado" is an error. */
  lemma StatusColorUnknownExample()
    ensures StatusColor(Some("Cancelado")) == Error
  {
    var e := "cancelado";
    assert Lower("Cancelado") == e;
    MissingCharNotContained(e, "completado", 3);
    MissingCharNotContained(e, "finalizado", 0);
    MissingCharNotContained(e, "aprobado", 1);
    MissingCharNotContained(e, "pendiente", 0);
    MissingCharNotContained(e, "en curso", 2);
    MissingCharNotContained(e, "progreso", 0);
  }

  /** `getGradeColor`: a percentage of correct answers of at least 70 is a
      success, at least 50 a warning, anything below an error. */
  function GradeColor(porcentaje: real): (r: BadgeColor)
    ensures r != Info
    ensures r == Success ==> porcentaje >= 70.0
  {
    if porcentaje >= 70.0 then Success
    else if porcentaje >= 50.0 then Warning
    else Error
  }

  function Rank(color: BadgeColor): nat {
    match color
    case Error => 0
    case Warning => 1
    case Info => 1
    case Success => 2
  }

  /** A higher percentage never gets a worse colour, and the table never shows "info". */
  lemma GradeColorMonotone(p: real, q: real)
    requires p <= q
    ensures Rank(GradeColor(p)) <= Rank(GradeColor(q))
    ensures GradeColor(p) != Info
  {
  }

  /** The three bands, over every percentage. */
  lemma GradeColorThresholds(p: real)
    ensures p >= 70.0 ==> GradeColor(p) == Success
    ensures 50.0 <= p < 70.0 ==> GradeColor(p) == Warning
    ensures p < 50.0 ==> GradeColor(p) == Error
  {
  }

  // ---------------------------------------------------------------------------
  // Windowing

  /** `Math.ceil(examenes.length / itemsPerPage)`. */
  function TotalPages(n: nat): (r: nat)
    ensures r * ItemsPerPage >= n
    ensures (r - 1) * ItemsPerPage < n
  {
    (n + ItemsPerPage - 1) / ItemsPerPage
  }

  /** How `Array.prototype.slice` reads an index: negative counts from the end,
      and the result is clipped to the length. */
  function RelativeIndex(k: int, n: nat): (r: nat)
    ensures r <= n
  {
    if k < 0 then (if n + k < 0 then 0 else n + k)
    else if k > n then n
    else k
  }

  /** `s.slice(start, end)`. */
  function JsSlice<T>(s: seq<T>, start: int, end: int): (r: seq<T>)
    ensures |r| <= |s|
    ensures 0 <= start <= end ==> r == s[Pagination.Min(start, |s|)..Pagination.Min(end, |s|)]
  {
    var from, to := RelativeIndex(start, |s|), RelativeIndex(end, |s|);
    if from < to then s[from..to] else []
  }

  /** `paginatedExamenes` for a given page. */
  function PageSlice<T>(examenes: seq<T>, page: int): (r: seq<T>)
    ensures |r| <= ItemsPerPage
  {
    var startIndex := (page - 1) * ItemsPerPage;
    var endIndex := startIndex + ItemsPerPage;
    JsSlice(examenes, startIndex, endIndex)
  }

  /** Page p >= 1 shows the exams at positions (p - 1) * 5 up to p * 5, cut at the end. */
  lemma PageSliceWindow<T>(examenes: seq<T>, page: int)
    requires page >= 1
    ensures Pagination.Min((page - 1) * ItemsPerPage, |examenes|) <= Pagination.Min(page * ItemsPerPage, |examenes|)
    ensures PageSlice(examenes, page)
            == examenes[Pagination.Min((page - 1) * ItemsPerPage, |examenes|)..Pagination.Min(page * ItemsPerPage, |examenes|)]
    ensures |PageSlice(examenes, page)| <= ItemsPerPage
  {
  }

  /** For p >= 1 the page is empty, and the empty-state row shows, exactly when
      p is past the last page. */
  lemma PageEmptyIffPastLast<T>(examenes: seq<T>, page: int)
    requires page >= 1
    ensures PageSlice(examenes, page) == [] <==> page > TotalPages(|examenes|)
  {
    PageSliceWindow(examenes, page);
    var n := |examenes|;
    if page <= TotalPages(n) {
      assert (page - 1) * ItemsPerPage <= (TotalPages(n) - 1) * ItemsPerPage;
    } else {
      assert page * ItemsPerPage >= (TotalPages(n) + 1) * ItemsPerPage;
    }
  }

  /** Page 0 is empty; a negative page counts from the end of the list, as the
      slice indices turn negative. */
  lemma NonPositivePage<T>(examenes: seq<T>, page: int)
    requires page <= 0
    ensures page == 0 ==> PageSlice(examenes, page) == []
    ensures page < 0 && |examenes| + (page - 1) * ItemsPerPage >= 0 ==>
      PageSlice(examenes, page)
        == examenes[|examenes| + (page - 1) * ItemsPerPage..|examenes| + page * ItemsPerPage]
  {
  }

  /** Pages 1 to k one after the other. */
  function PagesUpTo<T>(examenes: seq<T>, k: nat): seq<T> {
    if k == 0 then [] else PagesUpTo(examenes, k - 1) + PageSlice(examenes, k)
  }

  lemma {:induction false} PagesUpToPrefix<T>(examenes: seq<T>, k: nat)
    ensures PagesUpTo(examenes, k) == examenes[..Pagination.Min(k * ItemsPerPage, |examenes|)]
  {
    if k > 0 {
      PagesUpToPrefix(examenes, k - 1);
      PageSliceWindow(examenes, k);
      var a, b := Pagination.Min((k - 1) * ItemsPerPage, |examenes|), Pagination.Min(k * ItemsPerPage, |examenes|);
      assert examenes[..a] + examenes[a..b] == examenes[..b];
    }
  }

  /** Reading pages 1 to the last one in order gives back the whole list. */
  lemma PagesCoverAll<T>(examenes: seq<T>)
    ensures PagesUpTo(examenes, TotalPages(|examenes|)) == examenes
  {
    PagesUpToPrefix(examenes, TotalPages(|examenes|));
  }

  /** A page chosen through the pager (a button, previous or next) is a page
      with exams on it. */
  lemma PagerLeadsToFilledPages<T>(examenes: seq<T>, c: int, i: int)
    requires 1 <= c <= TotalPages(|examenes|) && TotalPages(|examenes|) >= 2
    requires 0 <= i < |Pagination.PageIndicators(c, TotalPages(|examenes|))|
    requires Pagination.PageIndicators(c, TotalPages(|examenes|))[i].Num?
    ensures PageSlice(examenes, Pagination.PageIndicators(c, TotalPages(|examenes|))[i].page) != []
    ensures PageSlice(examenes, Pagination.PrevTarget(c)) != []
    ensures PageSlice(examenes, Pagination.NextTarget(c, TotalPages(|examenes|))) != []
  {
    var t := TotalPages(|examenes|);
    Pagination.IndicatorsInRange(c, t);
    Pagination.PrevNextInRange(c, t);
    PageEmptyIffPastLast(examenes, Pagination.PageIndicators(c, t)[i].page);
    PageEmptyIffPastLast(examenes, Pagination.PrevTarget(c));
    PageEmptyIffPastLast(examenes, Pagination.NextTarget(c, t));
  }

  // ---------------------------------------------------------------------------
  // Component state

  /** The state the table component keeps: current page, selected exam and
      whether the detail modal is open. */
  class TableState {
    const examenes: seq<Examen>
    var currentPage: int
    var selectedExam: Option<Examen>
    var isModalOpen: bool

    /** The modal is open exactly while an exam is selected. */
    ghost predicate Valid()
      reads this
    {
      isModalOpen <==> selectedExam.Some?
    }

    constructor(examenes: seq<Examen>)
      ensures Valid()
      ensures this.examenes == examenes
      ensures currentPage == 1 && selectedExam == None && !isModalOpen
    {
      this.examenes := examenes;
      currentPage := 1;
      selectedExam := None;
      isModalOpen := false;
    }

    /** `totalPages`: enough pages of five for every exam, and no more. */
    function PageCount(): (r: nat)
      reads this
      ensures r * ItemsPerPage >= |examenes|
      ensures (r - 1) * ItemsPerPage < |examenes|
    {
      TotalPages(|examenes|)
    }

    /** The rows shown for the current page; none means the empty-state row. */
    function PaginatedExamenes(): (r: seq<Examen>)
      reads this
      ensures |r| <= ItemsPerPage
      ensures currentPage >= 1 ==> (r == [] <==> currentPage > PageCount())
      ensures currentPage == 0 ==> r == []
    {
      if currentPage >= 1 then
        PageEmptyIffPastLast(examenes, currentPage);
        PageSlice(examenes, currentPage)
      else
        PageSlice(examenes, currentPage)
    }

    /** `handlePageChange`: the page is stored as given, without clamping. */
    method HandlePageChange(page: int)
      requires Valid()
      modifies this
      ensures Valid()
      ensures currentPage == page
      ensures selectedExam == old(selectedExam) && isModalOpen == old(isModalOpen)
      ensures PaginatedExamenes() == PageSlice(examenes, page)
      ensures PageCount() == old(PageCount())
    {
      currentPage := page;
    }

    /** `handleViewDetails`: selects the exam and opens the modal. */
    method HandleViewDetails(examen: Examen)
      requires Valid()
      modifies this
      ensures Valid()
      ensures selectedExam == Some(examen) && isModalOpen
      ensures currentPage == old(currentPage)
      ensures PaginatedExamenes() == old(PaginatedExamenes())
    {
      selectedExam := Some(examen);
      isModalOpen := true;
    }

    /** `handleCloseModal`: closes the modal and forgets the selection. */
    method HandleCloseModal()
      requires Valid()
      modifies this
      ensures Valid()
      ensures selectedExam == None && !isModalOpen
      ensures currentPage == old(currentPage)
      ensures PaginatedExamenes() == old(PaginatedExamenes())
    {
      isModalOpen := false;
      selectedExam := None;
    }
  }
}
