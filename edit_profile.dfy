/**
 * The editing state of the profile page (pages/EditProfile.jsx): the mentor
 * record, the per-field error messages, the open section and the avatar.
 */
module EditProfilePage {
  import opened Wrappers
  import opened Digits
  import opened Validation

  /** `AVATAR_ASSETS`: the avatar picture of each gender the page offers. */
  const AvatarAssets: map<string, string> := map[
    "Male" := "https://api.dicebear.com/9.x/toon-head/svg?seed=Vivian",
    "Female" := "https://api.dicebear.com/9.x/toon-head/svg?seed=Oliver",
    "Transgender" := "https://api.dicebear.com/9.x/avataaars/svg?seed=Jack",
    "Bisexual" := "https://api.dicebear.com/9.x/avataaars/svg?seed=Aiden"
  ]

  /** A notice shown beside a section. */
  datatype Notice = Notice(id: string, message: string)

  /** The mentor record's text fields; None stands for null and undefined. */
  type Record = map<string, Option<string>>

  /**
   * The input `updateField` refuses outright: a non-empty phone or account
   * number with a character other than a decimal digit.
   */
  predicate Rejected(field: string, value: Option<string>) {
    && (field == "phone" || field == "accountNumber")
    && value.Some? && value.value != ""
    && !AllDigits(value.value)
  }

  /** The gender `handleColorSelect` draws: the mentor's when it has an avatar, otherwise "Male". */
  function AvatarGender(mentor: Record): (gender: string)
    ensures gender in AvatarAssets
    ensures "gender" in mentor && mentor["gender"].Some? && mentor["gender"].value in AvatarAssets
            ==> gender == mentor["gender"].value
    ensures !("gender" in mentor && mentor["gender"].Some? && mentor["gender"].value in AvatarAssets)
            ==> gender == "Male"
  {
    if "gender" in mentor && mentor["gender"].Some? && mentor["gender"].value in AvatarAssets
    then mentor["gender"].value
    else "Male"
  }

  function AvatarUrl(gender: string, color: string): string
    requires gender in AvatarAssets
  {
    AvatarAssets[gender] + "&backgroundColor=" + color
  }

  class ProfileEditor {
    var mentor: Record
    var errors: map<string, string>
    var successAnimations: map<string, bool>
    var activeSection: Option<string>
    var notification: Option<Notice>
    var avatarColor: string
    var profileImageUrl: string

    constructor (mentor: Record, profileImageUrl: string)
      ensures this.mentor == mentor && this.profileImageUrl == profileImageUrl
      ensures errors == map[] && successAnimations == map[]
      ensures activeSection == None && notification == None
      ensures avatarColor == "b6e3f4"
    {
      this.mentor := mentor;
      this.profileImageUrl := profileImageUrl;
      errors := map[];
      successAnimations := map[];
      activeSection := None;
      notification := None;
      avatarColor := "b6e3f4";
    }

    /**
     * `updateField`: refuse non-digit phone and account input; otherwise
     * store the value and its validation message ("" when valid), flagging
     * a field whose earlier error has just been cleared.
     */
    method UpdateField(field: string, value: Option<string>)
      modifies this`mentor, this`errors, this`successAnimations
      ensures Rejected(field, value) ==>
                mentor == old(mentor) && errors == old(errors) && successAnimations == old(successAnimations)
      ensures !Rejected(field, value) ==>
                && mentor == old(mentor)[field := value]
                && errors == old(errors)[field := ValidateField(field, value)]
                && successAnimations ==
                     if ValidateField(field, value) == "" && field in old(errors) && old(errors)[field] != ""
                     then old(successAnimations)[field := true]
                     else old(successAnimations)
      ensures "phone" in errors && errors["phone"] == DigitsOnly ==>
                "phone" in old(errors) && old(errors)["phone"] == DigitsOnly
    {
      if (field == "phone" || field == "accountNumber") && value.Some? && value.value != "" {
        if !AllDigits(value.value) {
          return;
        }
      }
      mentor := mentor[field := value];
      var error := ValidateField(field, value);
      if error != "" {
        errors := errors[field := error];
      } else {
        if field in errors && errors[field] != "" {
          successAnimations := successAnimations[field := true];
        }
        errors := errors[field := ""];
      }
    }

    /**
     * `toggleSection`: closing the open section (with the saved notice for
     * the slots section), or opening another one in its place.
     */
    method ToggleSection(section: string)
      modifies this`activeSection, this`notification
      ensures old(activeSection) == Some(section) ==>
                && activeSection == None
                && notification == if section == "slots" then Some(Notice("slots", "Availability saved!"))
                                   else old(notification)
      ensures old(activeSection) != Some(section) ==>
                activeSection == Some(section) && notification == old(notification)
    {
      if activeSection == Some(section) {
        if section == "slots" {
          notification := Some(Notice("slots", "Availability saved!"));
        }
        activeSection := None;
      } else {
        activeSection := Some(section);
      }
    }

    /** `handleColorSelect`: keep the colour and redraw the avatar of the mentor's gender. */
    method HandleColorSelect(color: string)
      modifies this`avatarColor, this`profileImageUrl
      ensures avatarColor == color
      ensures profileImageUrl == AvatarUrl(AvatarGender(mentor), color)
    {
      avatarColor := color;
      profileImageUrl := AvatarUrl(AvatarGender(mentor), color);
    }

    /**
     * `handleGenderSelect`: record the gender and draw its avatar in the
     * current colour; a later colour change keeps that gender's avatar.
     */
    method HandleGenderSelect(gender: string)
      requires gender in AvatarAssets
      modifies this`mentor, this`errors, this`successAnimations, this`profileImageUrl
      ensures mentor == old(mentor)["gender" := Some(gender)]
      ensures errors == old(errors)["gender" := ""]
      ensures successAnimations ==
                if "gender" in old(errors) && old(errors)["gender"] != ""
                then old(successAnimations)["gender" := true]
                else old(successAnimations)
      ensures profileImageUrl == AvatarUrl(gender, avatarColor)
      ensures AvatarGender(mentor) == gender
    {
      UpdateField("gender", Some(gender));
      profileImageUrl := AvatarUrl(gender, avatarColor);
    }
  }
}
