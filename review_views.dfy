/** Creating a review on a board (ReviewViewSet.create in views.py): the
    request is validated, the review is stored, and a board that was not
    yet complete is checked against its target. */
module ReviewViews {
  import opened Wrappers
  import opened BingoModels
  import BingoService
  import BoardSerializer
  import PythonText

  /** The fields of a review request that the server validates. The
      visited date is None when the request leaves it out. */
  datatype ReviewRequest = ReviewRequest(author: nat, restaurant: nat, content: string, rating: int,
                                         visitedDate: Option<string>, isPublic: bool)

  datatype Field = Content | Rating | VisitedDate

  datatype CreateError =
    | InvalidFields(fields: set<Field>)   // field validation of content, rating and date
    | AlreadyReviewed                     // unique_together (bingo_board, restaurant)
    | NotInTemplate                       // ReviewCreateSerializer.validate

  /** The two flags the create response adds to the stored review. */
  datatype Flags = Flags(bingoCompleted: bool, goalAchieved: bool)

  datatype CreateResponse = Rejected(error: CreateError) | Created(review: Review, flags: Flags)

  // ---------------------------------------------------------------------
  // The visited date. DRF's DateField reads ISO dates with Django's
  // parse_date: a four-digit year, a one- or two-digit month and day
  // separated by '-', which must name a real calendar day.

  datatype Date = Date(year: int, month: int, day: int)

  predicate IsDigit(c: char) {
    '0' <= c <= '9'
  }

  predicate AllDigits(s: string) {
    forall k :: 0 <= k < |s| ==> IsDigit(s[k])
  }

  /** The number a run of decimal digits spells. */
  function DigitsValue(s: string): nat
    requires AllDigits(s)
  {
    if s == [] then 0 else DigitsValue(s[..|s| - 1]) * 10 + (s[|s| - 1] as int - '0' as int)
  }

  function Pow10(n: nat): nat {
    if n == 0 then 1 else 10 * Pow10(n - 1)
  }

  /** Reading digits is positional: the digits of a come before those of b. */
  lemma {:induction false} DigitsValueAppend(a: string, b: string)
    requires AllDigits(a) && AllDigits(b)
    ensures AllDigits(a + b)
    ensures DigitsValue(a + b) == DigitsValue(a) * Pow10(|b|) + DigitsValue(b)
  {
    if b == [] {
      assert a + b == a;
    } else {
      var b', last := b[..|b| - 1], b[|b| - 1] as int - '0' as int;
      assert (a + b)[..|a + b| - 1] == a + b';
      DigitsValueAppend(a, b');
      assert DigitsValue(a + b) == DigitsValue(a + b') * 10 + last;
      assert DigitsValue(b) == DigitsValue(b') * 10 + last;
      assert Pow10(|b|) == Pow10(|b'|) * 10;
      ShiftDigit(DigitsValue(a), Pow10(|b'|), DigitsValue(b'), last);
    }
  }

  /** Appending one digit to x * p + y scales both parts by ten. */
  lemma ShiftDigit(x: int, p: int, y: int, d: int)
    ensures (x * p + y) * 10 + d == x * (p * 10) + (y * 10 + d)
  {
  }

  predicate IsLeapYear(y: int) {
    y % 4 == 0 && (y % 100 != 0 || y % 400 == 0)
  }

  function DaysInMonth(y: int, m: int): int
    requires 1 <= m <= 12
  {
    if m == 2 then (if IsLeapYear(y) then 29 else 28)
    else if m == 4 || m == 6 || m == 9 || m == 11 then 30
    else 31
  }

  /** A day Python's date type can hold. */
  predicate ValidDate(d: Date) {
    && 1 <= d.year <= 9999
    && 1 <= d.month <= 12
    && 1 <= d.day <= DaysInMonth(d.year, d.month)
  }

  /** parse_date: the day the text names, or None when it does not have
      the YYYY-M-D shape or names no real day. */
  function ParseDate(s: string): (r: Option<Date>)
    ensures r.Some? ==> ValidDate(r.value)
    ensures r.Some? ==> (8 <= |s| <= 10 && s[4] == '-' && AllDigits(s[..4])
                         && r.value.year == DigitsValue(s[..4]))
  {
    if |s| < 8 || |s| > 10 || s[4] != '-' || !AllDigits(s[..4]) then None
    else
      var rest := s[5..];
      var j := if rest[1] == '-' then 1 else 2;
      if rest[j] != '-' then None
      else
        var month := rest[..j];
        var day := rest[j + 1..];
        if !(1 <= |day| <= 2) || !AllDigits(month) || !AllDigits(day) then None
        else
          var date := Date(DigitsValue(s[..4]), DigitsValue(month), DigitsValue(day));
          if ValidDate(date) then Some(date) else None
  }

  function Digit(n: nat): char
    requires n < 10
  {
    ('0' as int + n) as char
  }

  /** n as two digits, with a leading zero. */
  function Pad2(n: nat): (s: string)
    requires n < 100
    ensures |s| == 2 && AllDigits(s)
  {
    [Digit(n / 10), Digit(n % 10)]
  }

  lemma Pad2Value(n: nat)
    requires n < 100
    ensures DigitsValue(Pad2(n)) == n
  {
    var s := Pad2(n);
    assert s[..1][..0] == [];
    assert DigitsValue(s[..1]) == n / 10;
    assert DigitsValue(s) == (n / 10) * 10 + n % 10;
  }

  /** The YYYY-MM-DD text of a day, as the review form's date input gives it. */
  function IsoFormat(d: Date): (s: string)
    requires ValidDate(d)
    ensures |s| == 10
  {
    Pad2(d.year / 100) + Pad2(d.year % 100) + "-" + Pad2(d.month) + "-" + Pad2(d.day)
  }

  /** Text of the shape YYYY-MM-DD is read field by field. */
  lemma ParseDigitFields(y: string, m: string, dd: string)
    requires |y| == 4 && |m| == 2 && |dd| == 2
    requires AllDigits(y) && AllDigits(m) && AllDigits(dd)
    ensures var date := Date(DigitsValue(y), DigitsValue(m), DigitsValue(dd));
      ParseDate(y + "-" + m + "-" + dd) == if ValidDate(date) then Some(date) else None
  {
    var s := y + "-" + m + "-" + dd;
    assert s[..4] == y;
    var rest := s[5..];
    assert rest == m + "-" + dd;
    assert IsDigit(m[1]);
    assert rest[..2] == m;
    assert rest[3..] == dd;
  }

  /** Every day written as YYYY-MM-DD is read back as that day. */
  lemma IsoFormatParses(d: Date)
    requires ValidDate(d)
    ensures ParseDate(IsoFormat(d)) == Some(d)
  {
    var hi, lo := Pad2(d.year / 100), Pad2(d.year % 100);
    DigitsValueAppend(hi, lo);
    Pad2Value(d.year / 100);
    Pad2Value(d.year % 100);
    assert Pow10(|lo|) == 100;
    assert DigitsValue(hi + lo) == d.year;
    Pad2Value(d.month);
    Pad2Value(d.day);
    ParseDigitFields(hi + lo, Pad2(d.month), Pad2(d.day));
    assert IsoFormat(d) == hi + lo + "-" + Pad2(d.month) + "-" + Pad2(d.day);
  }

  /** February 29th is a day in 2024 and not in 2023. */
  lemma LeapDayExample()
    ensures ParseDate("2024-02-29") == Some(Date(2024, 2, 29))
    ensures ParseDate("2023-02-29") == None
  {
    assert "2024-02-29" == IsoFormat(Date(2024, 2, 29));
    IsoFormatParses(Date(2024, 2, 29));
    var y := Pad2(20) + Pad2(23);
    assert "2023-02-29" == y + "-" + Pad2(2) + "-" + Pad2(29);
    DigitsValueAppend(Pad2(20), Pad2(23));
    Pad2Value(20);
    Pad2Value(23);
    Pad2Value(2);
    Pad2Value(29);
    ParseDigitFields(y, Pad2(2), Pad2(29));
  }

  /** The fields whose validation fails. The content is stripped first and
      then must keep ten characters and hold no NUL character; the rating
      must lie in 1..5; the visited date is required and must be a day. */
  function FieldErrors(req: ReviewRequest): (errs: set<Field>)
    ensures Content in errs <==> |PythonText.Strip(req.content)| < 10 || '\0' in PythonText.Strip(req.content)
    ensures Rating in errs <==> !(1 <= req.rating <= 5)
    ensures VisitedDate in errs <==> req.visitedDate.None? || ParseDate(req.visitedDate.value).None?
    ensures errs <= {Content, Rating, VisitedDate}
  {
    var content := PythonText.Strip(req.content);
    Failing(|content| < 10 || '\0' in content, !(1 <= req.rating <= 5),
            req.visitedDate.None? || ParseDate(req.visitedDate.value).None?)
  }

  /** The set of fields named by three verdicts. */
  function Failing(content: bool, rating: bool, visitedDate: bool): (errs: set<Field>)
    ensures Content in errs <==> content
    ensures Rating in errs <==> rating
    ensures VisitedDate in errs <==> visitedDate
    ensures errs <= {Content, Rating, VisitedDate}
  {
    (if content then {Content} else {}) + (if rating then {Rating} else {})
    + (if visitedDate then {VisitedDate} else {})
  }

  /** Serializer validation in the order the serializer runs it: field
      validators, then the uniqueness of the restaurant on the board, then
      the template check. */
  function CheckRequest(items: seq<TemplateItem>, reviews: seq<Review>, req: ReviewRequest): (r: Option<CreateError>)
    ensures r == None <==>
      && |PythonText.Strip(req.content)| >= 10 && '\0' !in PythonText.Strip(req.content)
      && 1 <= req.rating <= 5
      && req.visitedDate.Some? && ParseDate(req.visitedDate.value).Some?
      && req.restaurant !in ReviewedRestaurants(reviews)
      && req.restaurant in TemplateRestaurants(items)
    ensures r.Some? && r.value.InvalidFields? ==> r.value.fields != {}
  {
    var errs := FieldErrors(req);
    if errs != {} then Some(InvalidFields(errs))
    else if req.restaurant in ReviewedRestaurants(reviews) then Some(AlreadyReviewed)
    else if BoardSerializer.Validate(items, req.restaurant).Some? then Some(NotInTemplate)
    else None
  }

  /** The flags reported for a stored review, given whether the board was
      already complete and how many lines it has now. */
  function Report(wasCompleted: bool, lines: nat, target: nat): (f: Flags)
    ensures f.goalAchieved ==> f.bingoCompleted
    ensures wasCompleted ==> f == Flags(false, false)
    ensures !wasCompleted ==> (f.goalAchieved <==> lines >= target)
    ensures !wasCompleted ==> (f.bingoCompleted <==> lines > 0 || lines >= target)
  {
    if wasCompleted then Flags(false, false)
    else if lines >= target then Flags(true, true)
    else if lines > 0 then Flags(true, false)
    else Flags(false, false)
  }

  /** The number of lines the reviews of a board over `items` complete. */
  function LineCount(items: seq<TemplateItem>, reviews: seq<Review>): nat {
    BingoService.CompletedLineCount(BingoService.ActivatedOf(items, ReviewedRestaurants(reviews)))
  }

  /** The database constraints on template items and on the reviews of a
      board, and validation of every review against the template. */
  ghost predicate Consistent(items: seq<TemplateItem>, reviews: seq<Review>) {
    && ValidItems(items)
    && ValidReviews(reviews)
    && (forall r :: r in reviews ==> r.restaurant in TemplateRestaurants(items))
  }

  /** A user's board: the template items it was created from, its target,
      its reviews and its completion state. */
  class BingoBoard {
    const items: seq<TemplateItem>
    const targetLineCount: nat
    var reviews: seq<Review>
    var isCompleted: bool
    var completedAt: Option<int>

    /** The database constraints on the board's template items and
        reviews. completed_at is nullable, so a completed board need not
        carry one. */
    ghost predicate Valid()
      reads this
    {
      Consistent(items, reviews)
    }

    constructor (items: seq<TemplateItem>, targetLineCount: nat)
      requires ValidItems(items)
      ensures Valid()
      ensures this.items == items && this.targetLineCount == targetLineCount
      ensures reviews == [] && !isCompleted && completedAt == None
    {
      this.items := items;
      this.targetLineCount := targetLineCount;
      reviews := [];
      isCompleted := false;
      completedAt := None;
    }
  }

  /** ReviewViewSet.create: validate, store the review, and on a board that
      is not yet complete count its lines; reaching the target completes
      the board at `now`. */
  method Create(board: BingoBoard, req: ReviewRequest, newId: nat, now: int) returns (resp: CreateResponse)
    requires board.Valid()
    modifies board
    ensures board.Valid()
    ensures resp.Rejected? <==> CheckRequest(board.items, old(board.reviews), req).Some?
    ensures resp.Rejected? ==> resp.error == CheckRequest(board.items, old(board.reviews), req).value
    ensures resp.Rejected? ==> unchanged(board)
    ensures resp.Created? ==> resp.review == Review(newId, req.author, req.restaurant, req.isPublic)
    ensures resp.Created? ==> board.reviews == old(board.reviews) + [resp.review]
    ensures resp.Created? ==> resp.flags == Report(old(board.isCompleted), LineCount(board.items, board.reviews), board.targetLineCount)
    ensures board.isCompleted <==> old(board.isCompleted) || (resp.Created? && resp.flags.goalAchieved)
    ensures resp.Created? && resp.flags.goalAchieved ==> board.completedAt == Some(now)
    ensures !(resp.Created? && resp.flags.goalAchieved) ==> board.completedAt == old(board.completedAt)
  {
    var check := CheckRequest(board.items, board.reviews, req);
    if check.Some? {
      return Rejected(check.value);
    }
    var review := Review(newId, req.author, req.restaurant, req.isPublic);
    board.reviews := board.reviews + [review];
    AcceptedRequestGrowsBoard(board.items, old(board.reviews), req, newId);
    var flags := RecordCompletion(board, now);
    resp := Created(review, flags);
  }

  /** The completion step of create, run after the review is stored: a
      board that is not yet complete and reaches its target becomes
      complete at `now`. */
  method RecordCompletion(board: BingoBoard, now: int) returns (flags: Flags)
    requires board.Valid()
    modifies board
    ensures board.Valid()
    ensures board.reviews == old(board.reviews)
    ensures flags == Report(old(board.isCompleted), LineCount(board.items, board.reviews), board.targetLineCount)
    ensures board.isCompleted <==> old(board.isCompleted) || flags.goalAchieved
    ensures flags.goalAchieved ==> board.completedAt == Some(now)
    ensures !flags.goalAchieved ==> board.completedAt == old(board.completedAt)
  {
    var bingoCompleted := false;
    var goalAchieved := false;
    if !board.isCompleted {
      var lines := BoardSerializer.GetCompletedLines(board.items, board.reviews);
      if lines >= board.targetLineCount {
        board.isCompleted := true;
        board.completedAt := Some(now);
        bingoCompleted := true;
        goalAchieved := true;
      } else if lines > 0 {
        bingoCompleted := true;
      }
    }
    flags := Flags(bingoCompleted, goalAchieved);
  }

  // ---------------------------------------------------------------------
  // Properties

  /** An accepted review leaves the board with one more review than before. */
  lemma AcceptedRequestGrowsBoard(items: seq<TemplateItem>, reviews: seq<Review>, req: ReviewRequest, newId: nat)
    requires ValidReviews(reviews)
    requires CheckRequest(items, reviews, req) == None
    ensures ValidReviews(reviews + [Review(newId, req.author, req.restaurant, req.isPublic)])
    ensures ReviewedRestaurants(reviews + [Review(newId, req.author, req.restaurant, req.isPublic)])
         == ReviewedRestaurants(reviews) + {req.restaurant}
  {
    var after := reviews + [Review(newId, req.author, req.restaurant, req.isPublic)];
    forall i, j | 0 <= i < j < |after| ensures after[i].restaurant != after[j].restaurant {
      if j == |reviews| {
        assert after[i] in reviews;
      }
    }
    assert forall r :: r in after <==> r in reviews || r == after[|reviews|];
  }

  /** A review on an incomplete board with lines but below target is
      reported as a bingo even when it completes no new line: on a
      template whose first row and the cell below its corner are
      restaurants 1..6, with target 3 and restaurants 1..5 reviewed,
      reviewing restaurant 6 leaves the board at one line and the response
      still says bingo_completed. */
  lemma ReportedWithoutNewLine(items: seq<TemplateItem>, before: seq<Review>, after: seq<Review>)
    requires items == [TemplateItem(0, 1), TemplateItem(1, 2), TemplateItem(2, 3), TemplateItem(3, 4),
                       TemplateItem(4, 5), TemplateItem(5, 6)]
    requires before == [Review(1, 9, 1, true), Review(2, 9, 2, true), Review(3, 9, 3, true),
                        Review(4, 9, 4, true), Review(5, 9, 5, true)]
    requires after == before + [Review(6, 9, 6, true)]
    ensures BingoService.CompletedLineCount(BingoService.ActivatedOf(items, ReviewedRestaurants(before))) == 1
    ensures BingoService.CompletedLineCount(BingoService.ActivatedOf(items, ReviewedRestaurants(after))) == 1
    ensures Report(false, 1, 3) == Flags(true, false)
  {
    ExampleReviewed(before, after);
    ExampleActivated(items);
    BingoService.CountRowExample(BingoService.ActivatedOf(items, {1, 2, 3, 4, 5}));
    BingoService.CountRowPlusCellExample(BingoService.ActivatedOf(items, {1, 2, 3, 4, 5, 6}));
  }

  lemma ExampleReviewed(before: seq<Review>, after: seq<Review>)
    requires before == [Review(1, 9, 1, true), Review(2, 9, 2, true), Review(3, 9, 3, true),
                        Review(4, 9, 4, true), Review(5, 9, 5, true)]
    requires after == before + [Review(6, 9, 6, true)]
    ensures ReviewedRestaurants(before) == {1, 2, 3, 4, 5}
    ensures ReviewedRestaurants(after) == {1, 2, 3, 4, 5, 6}
  {
    assert before[0].restaurant == 1 && before[1].restaurant == 2 && before[2].restaurant == 3;
    assert before[3].restaurant == 4 && before[4].restaurant == 5;
    assert after[5].restaurant == 6;
    assert forall r :: r in after <==> r in before || r == after[5];
  }

  lemma ExampleActivated(items: seq<TemplateItem>)
    requires items == [TemplateItem(0, 1), TemplateItem(1, 2), TemplateItem(2, 3), TemplateItem(3, 4),
                       TemplateItem(4, 5), TemplateItem(5, 6)]
    ensures BingoService.ActivatedOf(items, {1, 2, 3, 4, 5}) == {0, 1, 2, 3, 4}
    ensures BingoService.ActivatedOf(items, {1, 2, 3, 4, 5, 6}) == {0, 1, 2, 3, 4, 5}
  {
    assert forall it :: it in items ==> it.position == it.restaurant - 1;
    assert items[0] in items && items[1] in items && items[2] in items;
    assert items[3] in items && items[4] in items && items[5] in items;
  }
}
