/** The rule `validateArticleFormData` applies to a submitted article form.
    Strings are sequences of Unicode scalar values, so `|s|` is the rune count
    `utf8.RuneCountInString` returns for well-formed UTF-8. */
module Validation {

  const TitleField := "title"
  const BodyField := "body"

  const TitleRequired := "标题不能为空"
  const TitleLengthMessage := "标题长度需介于 3-40"
  const BodyRequired := "内容不能为空"
  const BodyLengthMessage := "内容长度需大于或等于 10 个字节"

  const TitleMinRunes := 3
  const TitleMaxRunes := 40
  const BodyMinRunes := 10

  /** A submission is acceptable exactly when the title has 3 to 40 runes and
      the body at least 10; there is no upper bound on the body. */
  predicate AcceptableForm(title: string, body: string) {
    TitleMinRunes <= |title| <= TitleMaxRunes && BodyMinRunes <= |body|
  }

  /** The error map for one submission: the title entry depends on the title
      alone and the body entry on the body alone, an empty field is reported as
      missing rather than as too short, and no other key appears. */
  function ValidateArticleFormData(title: string, body: string): (errors: map<string, string>)
    ensures errors.Keys <= {TitleField, BodyField}
    ensures TitleField in errors <==> title == "" || |title| < TitleMinRunes || |title| > TitleMaxRunes
    ensures TitleField in errors ==>
      errors[TitleField] == if title == "" then TitleRequired else TitleLengthMessage
    ensures BodyField in errors <==> body == "" || |body| < BodyMinRunes
    ensures BodyField in errors ==>
      errors[BodyField] == if body == "" then BodyRequired else BodyLengthMessage
    ensures |errors| == 0 <==> AcceptableForm(title, body)
  {
    var titleErrors :=
      if title == "" then map[TitleField := TitleRequired]
      else if |title| < TitleMinRunes || |title| > TitleMaxRunes then map[TitleField := TitleLengthMessage]
      else map[];
    var bodyErrors :=
      if body == "" then map[BodyField := BodyRequired]
      else if |body| < BodyMinRunes then map[BodyField := BodyLengthMessage]
      else map[];
    titleErrors + bodyErrors
  }

  /** Both checks run: an empty form is missing both fields, with the
      "required" messages and not the length ones. */
  lemma EmptyFormMissesBoth()
    ensures ValidateArticleFormData("", "") == map[TitleField := TitleRequired, BodyField := BodyRequired]
  {
  }
}
