/** The review form (ReviewForm.jsx): its four client-side checks, the
    change handlers that clear one error each, and the submit gate. */
module ReviewForm {
  import opened Wrappers
  import ReviewViews
  import PythonText

  datatype FormField = ImageField | ContentField | RatingField | VisitedDateField

  /** The two text inputs; each change event names one of them. */
  datatype InputName = ContentInput | VisitedDateInput

  /** What reaches onSubmit: the FormData entries, the image as the handle
      of the chosen file. */
  datatype Submission = Submission(content: string, rating: int, visitedDate: string, image: nat)

  /** The fields validateForm flags for the given form values. */
  function FormErrors(content: string, rating: Option<int>, visitedDate: string, image: Option<nat>): (errs: set<FormField>)
    ensures ImageField in errs <==> image.None?
    ensures ContentField in errs <==> |content| < 10
    ensures RatingField in errs <==> rating.None? || !(1 <= rating.value <= 5)
    ensures VisitedDateField in errs <==> visitedDate == ""
  {
    (if image.None? then {ImageField} else {})
    + (if content == "" || |content| < 10 then {ContentField} else {})
    + (if rating.None? || rating.value < 1 || rating.value > 5 then {RatingField} else {})
    + (if visitedDate == "" then {VisitedDateField} else {})
  }

  /** Object.keys(errors).length === 0. */
  method NoKeys(errs: set<FormField>) returns (none: bool)
    ensures none <==> errs == {}
  {
    none := |errs| == 0;
  }

  /** The field an input change event writes. */
  function FieldOf(name: InputName): FormField {
    match name
    case ContentInput => ContentField
    case VisitedDateInput => VisitedDateField
  }

  class Form {
    var content: string
    var rating: Option<int>
    var visitedDate: string
    var image: Option<nat>
    var errors: set<FormField>
    /** Every call to onSubmit, in order. */
    var submitted: seq<Submission>

    /** The form opens with empty content, five stars, today's date, no
        image and no errors. */
    constructor (today: string)
      ensures content == "" && rating == Some(5) && visitedDate == today && image == None
      ensures errors == {} && submitted == []
    {
      content := "";
      rating := Some(5);
      visitedDate := today;
      image := None;
      errors := {};
      submitted := [];
    }

    /** validateForm: records a fresh error set built check by check and
        answers whether it is empty. */
    method ValidateForm() returns (ok: bool)
      modifies this
      ensures errors == FormErrors(content, rating, visitedDate, image)
      ensures ok <==> errors == {}
      ensures content == old(content) && rating == old(rating) && visitedDate == old(visitedDate)
      ensures image == old(image) && submitted == old(submitted)
    {
      var newErrors: set<FormField> := {};
      if image.None? {
        newErrors := newErrors + {ImageField};
      }
      if content == "" || |content| < 10 {
        newErrors := newErrors + {ContentField};
      }
      if rating.None? || rating.value < 1 || rating.value > 5 {
        newErrors := newErrors + {RatingField};
      }
      if visitedDate == "" {
        newErrors := newErrors + {VisitedDateField};
      }
      assert newErrors == FormErrors(content, rating, visitedDate, image);
      errors := newErrors;
      ok := NoKeys(newErrors);
    }

    /** handleImageChange: a chosen file replaces the image and clears the
        image error; an empty selection changes nothing. */
    method HandleImageChange(file: Option<nat>)
      modifies this
      ensures file.Some? ==> image == file && errors == old(errors) - {ImageField}
      ensures file.None? ==> image == old(image) && errors == old(errors)
      ensures content == old(content) && rating == old(rating) && visitedDate == old(visitedDate)
      ensures submitted == old(submitted)
    {
      if file.Some? {
        image := file;
        errors := errors - {ImageField};
      }
    }

    /** The remove button under the preview drops the image and leaves the
        errors alone. */
    method RemoveImage()
      modifies this
      ensures image == None && errors == old(errors)
      ensures content == old(content) && rating == old(rating) && visitedDate == old(visitedDate)
      ensures submitted == old(submitted)
    {
      image := None;
    }

    /** handleInputChange: writes the named input and clears its error only. */
    method HandleInputChange(name: InputName, value: string)
      modifies this
      ensures name == ContentInput ==> content == value && visitedDate == old(visitedDate)
      ensures name == VisitedDateInput ==> visitedDate == value && content == old(content)
      ensures errors == old(errors) - {FieldOf(name)}
      ensures rating == old(rating) && image == old(image) && submitted == old(submitted)
    {
      match name {
        case ContentInput => content := value;
        case VisitedDateInput => visitedDate := value;
      }
      errors := errors - {FieldOf(name)};
    }

    /** handleRatingChange: sets the rating and clears the rating error only. */
    method HandleRatingChange(stars: int)
      modifies this
      ensures rating == Some(stars) && errors == old(errors) - {RatingField}
      ensures content == old(content) && visitedDate == old(visitedDate) && image == old(image)
      ensures submitted == old(submitted)
    {
      rating := Some(stars);
      errors := errors - {RatingField};
    }

    /** handleSubmit: validates, and only a valid form reaches onSubmit, with
        its content, rating, visit date and image. */
    method HandleSubmit()
      modifies this
      ensures errors == FormErrors(content, rating, visitedDate, image)
      ensures content == old(content) && rating == old(rating) && visitedDate == old(visitedDate)
      ensures image == old(image)
      ensures errors != {} ==> submitted == old(submitted)
      ensures errors == {} ==>
        (rating.Some? && image.Some? &&
         submitted == old(submitted) + [Submission(content, rating.value, visitedDate, image.value)])
    {
      var ok := ValidateForm();
      if !ok {
        return;
      }
      submitted := submitted + [Submission(content, rating.value, visitedDate, image.value)];
    }
  }

  /** The request the server receives for a submission; the form always
      sends a visited date. */
  function RequestOf(s: Submission, author: nat, restaurant: nat, isPublic: bool): ReviewViews.ReviewRequest {
    ReviewViews.ReviewRequest(author, restaurant, s.content, s.rating, Some(s.visitedDate), isPublic)
  }

  /** How the form's checks relate to the server's field validation.
      The rating checks agree. Content and a visited date the form refuses
      the server refuses too: stripping only shortens the content, and
      empty text is no date. The converse holds only for content that
      neither starts nor ends with white space and holds no NUL character,
      and for a date text that names a day; then a form that passes its
      own checks never fails the server's field validation. */
  lemma ChecksMatchServer(content: string, rating: int, visitedDate: string, image: Option<nat>,
                          author: nat, restaurant: nat, isPublic: bool)
    ensures var errs := FormErrors(content, Some(rating), visitedDate, image);
      var server := ReviewViews.FieldErrors(
        ReviewViews.ReviewRequest(author, restaurant, content, rating, Some(visitedDate), isPublic));
      && (RatingField in errs <==> ReviewViews.Rating in server)
      && (ContentField in errs ==> ReviewViews.Content in server)
      && (VisitedDateField in errs ==> ReviewViews.VisitedDate in server)
      && (PythonText.Strip(content) == content && '\0' !in content ==>
            (ContentField in errs <==> ReviewViews.Content in server))
      && (ReviewViews.ParseDate(visitedDate).Some? ==>
            VisitedDateField !in errs && ReviewViews.VisitedDate !in server)
      && ((errs == {} && PythonText.Strip(content) == content && '\0' !in content
           && ReviewViews.ParseDate(visitedDate).Some?) ==> server == {})
  {
    var server := ReviewViews.FieldErrors(
      ReviewViews.ReviewRequest(author, restaurant, content, rating, Some(visitedDate), isPublic));
    if FormErrors(content, Some(rating), visitedDate, image) == {} && PythonText.Strip(content) == content
       && '\0' !in content && ReviewViews.ParseDate(visitedDate).Some? {
      assert server <= {ReviewViews.Content, ReviewViews.Rating, ReviewViews.VisitedDate};
      assert ReviewViews.Content !in server && ReviewViews.Rating !in server && ReviewViews.VisitedDate !in server;
    }
  }

  /** Short content padded with spaces passes the form and fails the
      server: "abc" followed by ten spaces is thirteen characters long, but
      only three survive the server's strip. */
  lemma PaddedContentRejectedByServer(day: ReviewViews.Date, image: nat, author: nat, restaurant: nat)
    requires ReviewViews.ValidDate(day)
    ensures var content := "abc" + seq(10, _ => ' ');
      var visitedDate := ReviewViews.IsoFormat(day);
      && FormErrors(content, Some(5), visitedDate, Some(image)) == {}
      && ReviewViews.FieldErrors(
           ReviewViews.ReviewRequest(author, restaurant, content, 5, Some(visitedDate), true)) == {ReviewViews.Content}
  {
    var content := "abc" + seq(10, _ => ' ');
    var visitedDate := ReviewViews.IsoFormat(day);
    ReviewViews.IsoFormatParses(day);
    assert PythonText.StripStart(content) == content by {
      assert content[0] == 'a';
    }
    var t := PythonText.StripEnd(content);
    assert content[..3] == "abc";
    assert |t| >= 3 by {
      assert !PythonText.IsSpace(content[2]);
    }
    assert forall i :: 3 <= i < |content| ==> content[i] == ' ';
    assert PythonText.Strip(content) == "abc";
    var server := ReviewViews.FieldErrors(
      ReviewViews.ReviewRequest(author, restaurant, content, 5, Some(visitedDate), true));
    assert server <= {ReviewViews.Content, ReviewViews.Rating, ReviewViews.VisitedDate};
    assert ReviewViews.Content in server && ReviewViews.Rating !in server && ReviewViews.VisitedDate !in server;
  }
}
