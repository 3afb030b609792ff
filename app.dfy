// The member form of the application shell: the phone mask applied while typing,
// the flag that ignores save clicks while a save is running, the validation and
// shaping of a new member, and the notice shown when saving fails.

module App {
  import opened Wrappers
  import opened Text
  import Utils

  // ---------------------------------------------------------------- phone mask

  /** The digits the mask keeps: all of them, cut to the first 11. */
  function Kept(input: string): (d: string)
    ensures |d| <= 11 && AllDigits(d)
  {
    var n := Digits(input);
    if |n| > 11 then n[..11] else n
  }

  /** The layout for `d` kept digits. */
  function Layout(d: string): string
    requires |d| <= 11
  {
    if |d| == 0 then d
    else if |d| <= 2 then "(" + d
    else if |d| <= 7 then "(" + d[..2] + ") " + d[2..]
    else Utils.Masked(d[..2], d[2..7], d[7..])
  }

  /** The `input` handler: the field's new text. */
  method MaskPhone(input: string) returns (value: string)
    ensures value == Layout(Kept(input))
  {
    value := Digits(input);
    if |value| > 11 {
      value := value[..11];
    }
    if |value| > 0 {
      if |value| <= 2 {
        value := "(" + value;
      } else if |value| <= 7 {
        value := "(" + value[..2] + ") " + value[2..];
      } else if |value| <= 11 {
        value := Utils.Masked(value[..2], value[2..7], value[7..]);
      }
    }
  }

  lemma DigitsOfOpen(d: string)
    requires AllDigits(d)
    ensures Digits("(" + d) == d
  {
    DigitsAppend("(", d);
    DigitsOfNonDigits("(");
    DigitsOfDigits(d);
  }

  lemma DigitsOfArea(area: string, rest: string)
    requires AllDigits(area) && AllDigits(rest)
    ensures Digits("(" + area + ") " + rest) == area + rest
  {
    var s1 := "(" + area;
    var s2 := s1 + ") ";
    DigitsOfOpen(area);
    DigitsOfNonDigits(") ");
    DigitsAppend(s1, ") ");
    assert Digits(s2) == area;
    DigitsOfDigits(rest);
    DigitsAppend(s2, rest);
  }

  /** The masked text carries exactly the kept digits. */
  lemma LayoutDigits(d: string)
    requires |d| <= 11 && AllDigits(d)
    ensures Digits(Layout(d)) == d
  {
    if |d| == 0 {
    } else if |d| <= 2 {
      DigitsOfOpen(d);
    } else if |d| <= 7 {
      DigitsOfArea(d[..2], d[2..]);
      assert d[..2] + d[2..] == d;
    } else {
      Utils.DigitsOfMasked(d[..2], d[2..7], d[7..]);
      assert d[..2] + d[2..7] + d[7..] == d;
    }
  }

  /** Typing into an already masked field leaves it as it is. */
  lemma MaskIdempotent(input: string)
    ensures Layout(Kept(Layout(Kept(input)))) == Layout(Kept(input))
  {
    var d := Kept(input);
    LayoutDigits(d);
  }

  /** With 10 or 11 digits the mask agrees with `formatPhone`; with 11 the mask is
      the full `(DD) DDDDD-DDDD`. */
  lemma MaskAgreesWithFormatPhone(input: string)
    requires |Digits(input)| == 11
    ensures Layout(Kept(input)) == Utils.FormatPhone(input)
  {
  }

  /** Ten digits are masked `(DD) DDDDD-DDD`, not `formatPhone`'s `(DD) DDDD-DDDD`:
      the two differ at the eleventh character. */
  lemma TenDigitsMaskDiffers(input: string)
    requires |Digits(input)| == 10
    ensures Layout(Kept(input)) != Utils.FormatPhone(input)
  {
    var n := Digits(input);
    var typed := Layout(Kept(input));
    var formatted := Utils.FormatPhone(input);
    assert typed == Utils.Masked(n[..2], n[2..7], n[7..]);
    assert formatted == Utils.Masked(n[..2], n[2..6], n[6..]);
    MaskedAt(n[..2], n[2..7], n[7..]);
    MaskedAt(n[..2], n[2..6], n[6..]);
    assert typed[10] == '-';
    assert formatted[10] == n[6];
    assert IsDigit(n[6]);
  }

  /** Where the parts of `(area) first-last` sit. */
  lemma MaskedAt(area: string, first: string, last: string)
    requires |area| == 2 && |last| > 0
    ensures var m := Utils.Masked(area, first, last);
      |m| == 6 + |first| + |last| && m[5 + |first|] == '-' && m[6 + |first|] == last[0]
  {
  }

  // ---------------------------------------------------------------- isSaving

  /** The save button and the `isSaving` flag of its click handler. */
  class SaveButton {
    var isSaving: bool
    var disabled: bool
    /** How many times the handler has called `saveMember`. */
    var saves: nat

    constructor ()
      ensures !isSaving && !disabled && saves == 0
    {
      isSaving := false;
      disabled := false;
      saves := 0;
    }

    /** A click: ignored while a save runs, otherwise starts one. */
    method Click()
      modifies this
      ensures old(isSaving) ==> isSaving == old(isSaving) && disabled == old(disabled) && saves == old(saves)
      ensures !old(isSaving) ==> isSaving && disabled && saves == old(saves) + 1
    {
      if isSaving {
        return;
      }
      isSaving := true;
      disabled := true;
      saves := saves + 1;
    }

    /** The timer set in `finally`, a second after the save ends. */
    method Release()
      modifies this
      ensures !isSaving && !disabled && saves == old(saves)
    {
      isSaving := false;
      disabled := false;
    }

    /** Any number of clicks before the release start at most one save. */
    method Clicks(n: nat)
      modifies this
      ensures saves == old(saves) + (if old(isSaving) || n == 0 then 0 else 1)
      ensures isSaving == (old(isSaving) || n > 0)
    {
      var i := 0;
      while i < n
        invariant 0 <= i <= n
        invariant saves == old(saves) + (if old(isSaving) || i == 0 then 0 else 1)
        invariant isSaving == (old(isSaving) || i > 0)
      {
        Click();
        i := i + 1;
      }
    }
  }

  // ---------------------------------------------------------------- saveMember

  /** The form fields as typed (the class is the select's value). */
  datatype Form = Form(
    name: string,
    classChoice: string,
    customClass: string,
    phone: string,
    email: string,
    birthdate: string,
    active: bool)

  /** The object sent to `addMember`. */
  datatype MemberRecord = MemberRecord(
    name: string,
    className: string,
    phone: string,
    email: string,
    birthdate: Option<string>,
    active: bool)

  datatype Saving = Rejected(warning: string, focus: string) | Submit(record: MemberRecord)

  const Other := "Outra"
  const NameMissing := "Por favor, informe o nome do membro."
  const ClassMissing := "Por favor, informe o nome da turma."
  const EmailInvalid := "Por favor, informe um email válido."

  /** The class the record carries: the custom one, trimmed, when `Outra` is chosen. */
  function ChosenClass(f: Form): string {
    if f.classChoice == Other then Trim(f.customClass) else f.classChoice
  }

  /** `saveMember` for a new member: the checks in order, then the record. */
  function SaveMember(f: Form): Saving {
    var name := Trim(f.name);
    var email := Trim(f.email);
    if name == "" then Rejected(NameMissing, "member-name")
    else if f.classChoice == Other && Trim(f.customClass) == "" then Rejected(ClassMissing, "custom-class")
    else if email != "" && !Utils.ValidateEmail(email) then Rejected(EmailInvalid, "member-email")
    else Submit(MemberRecord(name, ChosenClass(f), Trim(f.phone), email,
                             if f.birthdate == "" then None else Some(f.birthdate), f.active))
  }

  /** The form is rejected exactly when one of the three checks fails, with the
      warning of the first that does. */
  lemma SaveMemberRejects(f: Form)
    ensures SaveMember(f).Rejected? <==>
      Trim(f.name) == "" || (f.classChoice == Other && Trim(f.customClass) == "")
      || (Trim(f.email) != "" && !Utils.ValidateEmail(Trim(f.email)))
    ensures Trim(f.name) == "" ==> SaveMember(f).warning == NameMissing
    ensures Trim(f.name) != "" && f.classChoice == Other && Trim(f.customClass) == "" ==>
      SaveMember(f).warning == ClassMissing
  {
  }

  /** An accepted form sends trimmed text, a non-blank name, the custom class in place
      of `Outra`, an empty or valid e-mail, and `null` for a blank birth date. */
  lemma SaveMemberRecord(f: Form)
    requires SaveMember(f).Submit?
    ensures var r := SaveMember(f).record;
      && r.name == Trim(f.name) && r.name != ""
      && (f.classChoice == Other ==> r.className == Trim(f.customClass) && r.className != "")
      && r.phone == Trim(f.phone)
      && (r.email == "" || Utils.ValidateEmail(r.email))
      && (r.birthdate.None? <==> f.birthdate == "")
      && r.active == f.active
  {
  }

  // ---------------------------------------------------------------- failure notice

  datatype Notice = DuplicateNotice | GenericNotice

  /** The notice for a failed save: the duplicate one when the message mentions
      `already exists` or `duplicate`. */
  function ErrorNotice(message: Option<string>): Notice {
    if message.Some? && message.value != ""
       && (Contains(message.value, "already exists") || Contains(message.value, "duplicate"))
    then DuplicateNotice
    else GenericNotice
  }

  /** A text starting with `t` holds every character of `t`. */
  lemma PrefixChars(s: string, t: string)
    ensures StartsWith(s, t) ==> forall x :: x in t ==> x in s
  {
    if StartsWith(s, t) {
      forall x | x in t ensures x in s {
        var k :| 0 <= k < |t| && t[k] == x;
        assert s[k] == x;
      }
    }
  }

  /** A text without some character of `t` does not contain `t`. */
  lemma {:induction false} MissingCharNotContained(s: string, t: string, c: char)
    requires c in t && c !in s
    ensures !Contains(s, t)
    decreases |s|
  {
    PrefixChars(s, t);
    if |s| > 0 {
      MissingCharNotContained(s[1..], t, c);
    }
  }

  /** The server's own duplicate answer, `Membro já cadastrado`, mentions neither, so
      it gets the generic notice. */
  lemma ServerDuplicateGetsGenericNotice()
    ensures ErrorNotice(Some("Membro já cadastrado")) == GenericNotice
  {
    var m := "Membro já cadastrado";
    assert "already exists"[6] == 'y';
    assert "duplicate"[1] == 'u';
    assert forall i :: 0 <= i < |m| ==> m[i] != 'y' && m[i] != 'u';
    MissingCharNotContained(m, "already exists", 'y');
    MissingCharNotContained(m, "duplicate", 'u');
  }
}
