/**
 * The work-status mapper (src/assets/js/mapper.js): a status value to a code
 * in {0, 1, 2}, a code to a display label, and a media record to the shape
 * the views use.
 */
module Mapper {
  import opened JsValues

  /** MEDIA_KIND.youtube. */
  const YouTube: string := "YOUTUBE"

  /** The built-in labels: not started, in progress, finished. */
  const NotStartedLabel: string := "미작업"
  const InProgressLabel: string := "작업중"
  const FinishedLabel: string := "작업완료"

  /**
   * workCondition as written. For a Number the test at line 15 is
   * `c !== 0 || c !== 1 || c !== 2`, which holds for every Number, so every
   * Number (NaN included) maps to 0.
   */
  function WorkCondition(condition: JsValue): (code: int)
    ensures 0 <= code <= 2
  {
    match condition
    case Str(s) =>
      if s == "will" then 0
      else if s == "working" then 1
      else if s == "done" then 2
      else 0
    case Num(n) => if n != 0 || n != 1 || n != 2 then 0 else n
    case NaN => 0
    case _ => if Truthy(condition) then 2 else 0
  }

  /** Lines 6-13: the three status words map to 0, 1 and 2; any other string to 0. */
  lemma StringConditions(s: string)
    ensures WorkCondition(Str(s)) == if s == "working" then 1 else if s == "done" then 2 else 0
  {
  }

  /** Lines 14-20 as written: no Number equals 0, 1 and 2 at once, so each one maps to 0, even 1 and 2. */
  lemma NumberAlwaysZero(n: int)
    ensures n != 0 || n != 1 || n != 2
    ensures WorkCondition(Num(n)) == 0
    ensures WorkCondition(NaN) == 0
  {
  }

  /** The input that shows line 15: the code 1 does not map to itself. */
  lemma NumericCodeOneIsLost()
    ensures WorkCondition(Num(1)) == 0 != 1
  {
  }

  /** Line 21: anything that is neither a string nor a number maps to 2 when truthy, to 0 when falsy. */
  lemma OtherConditions(condition: JsValue)
    requires !condition.Str? && !condition.Num? && !condition.NaN?
    ensures WorkCondition(condition) == if Truthy(condition) then 2 else 0
  {
  }

  /** workCondition as evidently intended at line 15: `&&` instead of `||`. */
  function WorkConditionIntended(condition: JsValue): (code: int)
    ensures 0 <= code <= 2
  {
    match condition
    case Num(n) => if n != 0 && n != 1 && n != 2 then 0 else n
    case _ => WorkCondition(condition)
  }

  /** The intended mapping keeps the codes 0, 1 and 2, sends every other Number to 0, and agrees with the code as written elsewhere. */
  lemma IntendedKeepsCodes(condition: JsValue)
    ensures condition.Num? && 0 <= condition.n <= 2 ==> WorkConditionIntended(condition) == condition.n
    ensures condition.Num? && !(0 <= condition.n <= 2) ==> WorkConditionIntended(condition) == 0
    ensures !condition.Num? ==> WorkConditionIntended(condition) == WorkCondition(condition)
    ensures WorkConditionIntended(Num(WorkCondition(condition))) == WorkCondition(condition)
  {
  }

  /** `defaultVal != null ? defaultVal : builtin`. */
  function Fallback(defaultVal: JsValue, builtin: string): (v: JsValue)
    ensures !IsNullish(defaultVal) ==> v == defaultVal
    ensures IsNullish(defaultVal) ==> v == Str(builtin)
  {
    if !IsNullish(defaultVal) then defaultVal else Str(builtin)
  }

  /** The built-in label of a code. */
  function BuiltinLabel(code: int): string {
    if code == 1 then InProgressLabel else if code == 2 then FinishedLabel else NotStartedLabel
  }

  /** The caller's label for code 0, 1 or 2. */
  function CallerLabel(code: int, will: JsValue, working: JsValue, done: JsValue): JsValue {
    if code == 0 then will else if code == 1 then working else done
  }

  /**
   * workMapper (lines 24-29). The result is never null or undefined: it is
   * the caller's label for the code when truthy, else defaultVal when
   * given, else the built-in label; a condition that is not the Number 0, 1
   * or 2 ignores the caller's labels.
   */
  function WorkMapper(condition: JsValue, will: JsValue, working: JsValue, done: JsValue, defaultVal: JsValue): (text: JsValue)
    ensures !IsNullish(text)
    ensures condition.Num? && 0 <= condition.n <= 2 ==>
      text == Or(CallerLabel(condition.n, will, working, done), Fallback(defaultVal, BuiltinLabel(condition.n)))
    ensures !(condition.Num? && 0 <= condition.n <= 2) ==> text == Fallback(defaultVal, NotStartedLabel)
  {
    if condition == Num(0) then Or(will, Fallback(defaultVal, NotStartedLabel))
    else if condition == Num(1) then Or(working, Fallback(defaultVal, InProgressLabel))
    else if condition == Num(2) then Or(done, Fallback(defaultVal, FinishedLabel))
    else Fallback(defaultVal, NotStartedLabel)
  }

  /** With no labels and no default, the built-in labels tell the three codes apart. */
  lemma BuiltinLabelsDistinguishCodes(c1: int, c2: int)
    requires 0 <= c1 <= 2 && 0 <= c2 <= 2
    ensures (WorkMapper(Num(c1), Undefined, Undefined, Undefined, Undefined)
             == WorkMapper(Num(c2), Undefined, Undefined, Undefined, Undefined)) <==> c1 == c2
  {
    assert NotStartedLabel[0] != InProgressLabel[0];
    assert NotStartedLabel[0] != FinishedLabel[0];
    assert |InProgressLabel| != |FinishedLabel|;
  }

  /** A media record as the caller passes it; a missing property is undefined. */
  datatype Media = Media(id: JsValue, imageUrl: JsValue, videoUrl: JsValue, title: JsValue, snippet: JsValue)

  /** The work progress as the caller passes it. */
  datatype Work = Work(worker: JsValue, split: JsValue, audioCheck: JsValue, textSubmit: JsValue)

  /** The default `work = {}`: every property undefined. */
  const NoWork: Work := Work(Undefined, Undefined, Undefined, Undefined)

  /** `data`: the caller's snippet, or a fresh empty object. */
  datatype DataField = Snippet(value: JsValue) | EmptyObject

  datatype WorkStatus = WorkStatus(worker: JsValue, split: int, audioCheck: int, textSubmit: int)

  datatype MediaData = MediaData(id: JsValue, imageUrl: JsValue, videoUrl: JsValue, title: JsValue,
                                 data: DataField, work: WorkStatus)

  /**
   * mediaDataMapper (lines 31-45) as written; an undefined `kind` takes its
   * default 'YOUTUBE'. The four identifying properties are copied, `data` is
   * the snippet exactly for YouTube media, the worker is never falsy, and
   * each flag is workCondition of the caller's flag, a code in {0, 1, 2}.
   */
  function MediaDataMapper(d: Media, kind: JsValue, work: Work): (r: MediaData)
    ensures r.id == d.id && r.imageUrl == d.imageUrl && r.videoUrl == d.videoUrl && r.title == d.title
    ensures r.data == (if kind.Undefined? || kind == Str(YouTube) then Snippet(d.snippet) else EmptyObject)
    ensures Truthy(r.work.worker)
    ensures r.work.worker == (if Truthy(work.worker) then work.worker else Str("-"))
    ensures r.work.split == WorkCondition(work.split)
    ensures r.work.audioCheck == WorkCondition(work.audioCheck)
    ensures r.work.textSubmit == WorkCondition(work.textSubmit)
    ensures 0 <= r.work.split <= 2 && 0 <= r.work.audioCheck <= 2 && 0 <= r.work.textSubmit <= 2
  {
    var k := if kind.Undefined? then Str(YouTube) else kind;
    MediaData(d.id, d.imageUrl, d.videoUrl, d.title,
              if k == Str(YouTube) then Snippet(d.snippet) else EmptyObject,
              WorkStatus(Or(work.worker, Str("-")),
                         WorkCondition(work.split), WorkCondition(work.audioCheck), WorkCondition(work.textSubmit)))
  }

  /** As written, a numeric flag is always coded 0, whatever code the caller passed. */
  lemma NumericFlagsBecomeZero(d: Media, kind: JsValue, work: Work)
    requires work.split.Num? && work.audioCheck.Num? && work.textSubmit.Num?
    ensures MediaDataMapper(d, kind, work).work.split == 0
    ensures MediaDataMapper(d, kind, work).work.audioCheck == 0
    ensures MediaDataMapper(d, kind, work).work.textSubmit == 0
  {
    NumberAlwaysZero(work.split.n);
    NumberAlwaysZero(work.audioCheck.n);
    NumberAlwaysZero(work.textSubmit.n);
  }

  /**
   * mediaDataMapper with the flags coded by the intended workCondition:
   * everything else as written, and a flag that already is a code in
   * {0, 1, 2} is kept.
   */
  function MediaDataMapperIntended(d: Media, kind: JsValue, work: Work): (r: MediaData)
    ensures r.(work := r.work.(split := 0, audioCheck := 0, textSubmit := 0)) ==
            var w := MediaDataMapper(d, kind, work); w.(work := w.work.(split := 0, audioCheck := 0, textSubmit := 0))
    ensures 0 <= r.work.split <= 2 && 0 <= r.work.audioCheck <= 2 && 0 <= r.work.textSubmit <= 2
    ensures work.split.Num? && 0 <= work.split.n <= 2 ==> r.work.split == work.split.n
    ensures work.audioCheck.Num? && 0 <= work.audioCheck.n <= 2 ==> r.work.audioCheck == work.audioCheck.n
    ensures work.textSubmit.Num? && 0 <= work.textSubmit.n <= 2 ==> r.work.textSubmit == work.textSubmit.n
  {
    var w := MediaDataMapper(d, kind, work);
    w.(work := w.work.(split := WorkConditionIntended(work.split),
                       audioCheck := WorkConditionIntended(work.audioCheck),
                       textSubmit := WorkConditionIntended(work.textSubmit)))
  }

  /** The two mappers differ only on numeric flags: with no numeric flag they give the same record. */
  lemma MediaDataMappersAgree(d: Media, kind: JsValue, work: Work)
    requires !work.split.Num? && !work.audioCheck.Num? && !work.textSubmit.Num?
    ensures MediaDataMapperIntended(d, kind, work) == MediaDataMapper(d, kind, work)
  {
  }

  /** Omitting `work` gives worker '-' and every flag 0. */
  lemma DefaultWork(d: Media, kind: JsValue)
    ensures MediaDataMapper(d, kind, NoWork).work == WorkStatus(Str("-"), 0, 0, 0)
  {
  }
}
