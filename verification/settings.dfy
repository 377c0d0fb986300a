/** The settings page (app/settings/page.tsx): a profile form holding the display
    name and the reminder hour, loaded from and saved to the user's metadata, and a
    password form. */
module Settings {
  import opened Wrappers
  import opened Accounts
  import opened Digits
  import Reminders

  datatype SettingsForm = SettingsForm(name: string, reminderHour: string, password: string, message: Option<string>)

  /** The page's state before the user is loaded: no name and the 9 o'clock default. */
  const InitialSettings: SettingsForm := SettingsForm("", "9", "", None)

  /** The reminder hours the selector offers, as the strings it stores. */
  const AllowedHours: seq<string> := ["6", "7", "8", "9", "10", "11", "12", "18"]

  /** Loading the signed-in user's metadata into the form: each stored value replaces
      the form's value only when it is present and non-empty. */
  function LoadSettings(f: SettingsForm, meta: Metadata): (r: SettingsForm)
    ensures r.name == (if Truthy(meta.displayName) then meta.displayName.value else f.name)
    ensures r.reminderHour == (if Truthy(meta.reminderHour) then meta.reminderHour.value else f.reminderHour)
    ensures r.password == f.password && r.message == f.message
  {
    f.(name := OrElse(meta.displayName, f.name), reminderHour := OrElse(meta.reminderHour, f.reminderHour))
  }

  /** The metadata the profile form writes: both keys together. */
  function ProfilePayload(f: SettingsForm): (m: Metadata)
    ensures m.displayName == Some(f.name) && m.reminderHour == Some(f.reminderHour)
  {
    Metadata(Some(f.name), Some(f.reminderHour))
  }

  /** The backend merges an update into the stored metadata key by key. */
  function MergeMetadata(stored: Metadata, update: Metadata): (m: Metadata)
    ensures update.displayName.Some? ==> m.displayName == update.displayName
    ensures update.displayName.None? ==> m.displayName == stored.displayName
    ensures update.reminderHour.Some? ==> m.reminderHour == update.reminderHour
    ensures update.reminderHour.None? ==> m.reminderHour == stored.reminderHour
  {
    Metadata(
      if update.displayName.Some? then update.displayName else stored.displayName,
      if update.reminderHour.Some? then update.reminderHour else stored.reminderHour)
  }

  datatype ProfileSave = ProfileSave(form: SettingsForm, stored: Metadata)

  /** Submitting the profile form; `error` is the backend's error message, if any. The
      stored metadata changes only when the update succeeds. */
  function SaveProfile(f: SettingsForm, stored: Metadata, error: Option<string>): (r: ProfileSave)
    ensures error.None? ==>
              r.stored == MergeMetadata(stored, ProfilePayload(f)) && r.form.message == Some("Profile updated successfully!")
    ensures error.Some? ==> r.stored == stored && r.form.message == Some("Error: " + error.value)
    ensures r.form.(message := f.message) == f
  {
    match error
    case None => ProfileSave(f.(message := Some("Profile updated successfully!")), MergeMetadata(stored, ProfilePayload(f)))
    case Some(e) => ProfileSave(f.(message := Some("Error: " + e)), stored)
  }

  /** Submitting the password form; the field is cleared only when the update succeeds. */
  function UpdatePassword(f: SettingsForm, error: Option<string>): (r: SettingsForm)
    ensures r.password == "" <==> error.None? || f.password == ""
    ensures error.Some? ==> r.password == f.password
    ensures r.name == f.name && r.reminderHour == f.reminderHour
  {
    match error
    case None => f.(password := "", message := Some("Password updated successfully!"))
    case Some(e) => f.(message := Some("Error: " + e))
  }

  /** Saving the profile and loading the page afresh restores the saved name, and the
      saved hour exactly when it is non-empty; an empty hour comes back as the 9 o'clock
      default. */
  lemma SaveThenLoadRoundTrip(f: SettingsForm, stored: Metadata)
    ensures var loaded := LoadSettings(InitialSettings, SaveProfile(f, stored, None).stored);
            && loaded.name == f.name
            && (loaded.reminderHour == f.reminderHour <==> f.reminderHour != "")
            && (f.reminderHour == "" ==> loaded.reminderHour == Reminders.DefaultReminderHour)
  {
  }

  /** Every selectable hour is a valid hour of the day among 6, 7, 8, 9, 10, 11, 12 and 18. */
  lemma AllowedHoursAreHours()
    ensures forall h :: h in AllowedHours ==>
              ParseDigits(h).Some? && ParseDigits(h).value in {6, 7, 8, 9, 10, 11, 12, 18}
              && ParseDigits(h).value <= 23
  {
    forall h | h in AllowedHours
      ensures ParseDigits(h).Some? && ParseDigits(h).value in {6, 7, 8, 9, 10, 11, 12, 18}
    {
      var k :| 0 <= k < |AllowedHours| && AllowedHours[k] == h;
      assert h[..|h| - 1] == [] || h[..|h| - 1] == "1";
      assert DigitsValue("1") == 1 by { assert "1"[..0] == []; }
    }
  }

  /** The hour the settings page shows after loading is the hour the reminder job uses:
      the two read the same metadata with the same 9 o'clock default. */
  lemma SettingsAgreeWithReminderJob(meta: Metadata)
    ensures ParseDigits(LoadSettings(InitialSettings, meta).reminderHour) == Reminders.PreferredHour(meta)
  {
  }

  /** A user who saves one of the offered hours is reminded at exactly that hour. */
  lemma SavedHourIsReminderHour(f: SettingsForm, stored: Metadata, i: nat)
    requires i < |AllowedHours| && f.reminderHour == AllowedHours[i]
    ensures var u := SaveProfile(f, stored, None).stored;
            Reminders.PreferredHour(u) == ParseDigits(AllowedHours[i])
            && Reminders.PreferredHour(u).Some?
  {
  }
}
