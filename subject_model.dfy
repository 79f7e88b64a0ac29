/** The Subject document (Subject.js): a named subject with a unique code, a
    credit count and a category, and the static that generates a code from the
    subject's name. */
module Subjects {
  import opened Common
  import opened Text

  datatype Category = Core | Elective | Extracurricular

  datatype SubjectStatus = Active | Inactive

  datatype SubjectDoc = SubjectDoc(id: Id, name: string, code: string, credits: int, category: Category, status: SubjectStatus)

  function Min(a: nat, b: nat): nat { if a < b then a else b }

  /** `generateSubjectCode(name)` with `count` subjects stored: the first three
      characters of the name (fewer for a shorter name), uppercased, then
      `count + 1` left-padded with zeros to three digits. */
  function SubjectCode(name: string, count: nat): (r: string)
    ensures |r| >= 3 && forall i :: |r| - 3 <= i < |r| ==> IsDigit(r[i])
  {
    PaddedDigits(Decimal(count + 1), 3);
    ToUpper(name[..Min(3, |name|)]) + PadStart(Decimal(count + 1), 3, '0')
  }

  /** The code is the uppercased name prefix followed by digits reading as
      `count + 1`; its length is min(3, |name|) plus max(3, the number of digits
      of `count + 1`). */
  lemma SubjectCodeShape(name: string, count: nat)
    ensures var r := SubjectCode(name, count);
      var k := Min(3, |name|);
      var d := |Decimal(count + 1)|;
      |r| == k + (if d < 3 then 3 else d)
      && r[..k] == ToUpper(name[..k])
      && (forall i :: k <= i < |r| ==> IsDigit(r[i]))
      && DecimalValue(r[k..]) == count + 1
      && (count + 1 < 1000 ==> |r| == k + 3)
  {
    var k := Min(3, |name|);
    var p := ToUpper(name[..k]);
    var n := PadStart(Decimal(count + 1), 3, '0');
    var r := p + n;
    PaddedDecimalRoundTrip(count + 1, 3);
    assert r[..k] == p && r[k..] == n;
    forall i | k <= i < |r| ensures IsDigit(r[i]) {
      assert r[i] == n[i - k];
    }
    if count + 1 < 1000 {
      assert Pow10(3) == 1000;
      DecimalLength(count + 1, 3);
    }
  }

  /** The `uppercase` setter stores a generated code unchanged. */
  lemma SubjectCodeUppercase(name: string, count: nat)
    ensures ToUpper(SubjectCode(name, count)) == SubjectCode(name, count)
  {
    var k := Min(3, |name|);
    var p := ToUpper(name[..k]);
    var n := PadStart(Decimal(count + 1), 3, '0');
    var r := p + n;
    PaddedDecimalRoundTrip(count + 1, 3);
    forall i | 0 <= i < |r| ensures UpperChar(r[i]) == r[i] {
      if i < k {
        assert r[i] == p[i];
      } else {
        assert r[i] == n[i - k];
      }
    }
  }

  /** `Subject.create(...)` from the controller's fields: the code is stored
      trimmed and uppercased, credits default to 1 (`credits || 1`, so 0 also
      becomes 1), the category to core and the status to active. A name or code
      that is empty once trimmed fails `required`, and negative credits fail
      `min: 0`; both are answered 400. */
  function NewSubject(id: Id, name: string, code: string, credits: Option<int>, category: Option<Category>): (r: Outcome<SubjectDoc>)
    ensures r.Err? <==> (Trim(name) == [] || Trim(code) == [] || (credits.Some? && credits.value < 0))
    ensures r.Err? ==> r.code == BadRequest
    ensures r.Ok? ==> (r.value.name == Trim(name)
      && r.value.code == ToUpper(Trim(code))
      && ToUpper(r.value.code) == r.value.code && |r.value.code| == |Trim(code)|
      && r.value.credits >= 1
      && (credits.Some? && credits.value > 0 ==> r.value.credits == credits.value)
      && (credits.None? || credits.value == 0 ==> r.value.credits == 1)
      && r.value.category == (if category.Some? then category.value else Core)
      && r.value.status == Active)
  {
    var c := ToUpper(Trim(code));
    var cr := if credits.Some? && credits.value != 0 then credits.value else 1;
    if Trim(name) == [] || c == [] || cr < 0 then Err(BadRequest)
    else
      ToUpperIdempotent(Trim(code));
      Ok(SubjectDoc(id, Trim(name), c, cr, if category.Some? then category.value else Core, Active))
  }
}
