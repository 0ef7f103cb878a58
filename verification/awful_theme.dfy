/**
 The app's theme registry: ten fixed themes, the forum override table, and
 the rules that turn a stored preference into a theme and a theme into the
 path of the CSS file its thread view loads.

 The preferences singleton is passed in as a `Preferences` value, and the
 platform calls of `getCssPath` (the storage permission, the Android version
 and the file checks) as a `Device` value.
 */
module AwfulTheme {
  import opened Wrappers
  import opened JavaStrings

  /** The `R.style` resources the themes use, as opaque names. */
  datatype StyleRes =
    | ThemeAwfulTheme
    | ThemeAwfulThemeDark
    | ThemeAwfulThemeOled
    | ThemeAwfulThemeYospos
    | ThemeAwfulThemeAmberpos
    | ThemeAwfulThemeFyad
    | ThemeAwfulThemeByob

  /** The enum constants, in declaration order. */
  datatype Theme =
    | Default
    | Dark
    | Oled
    | GreenPos
    | AmberPos
    | Fyad
    | Byob
    | Classic
      // the two variations of a user-supplied theme
    | Custom
    | CustomDark
  {
    /** The name shown to the user. */
    function DisplayName(): string {
      match this
      case Default => "Default"
      case Dark => "Dark"
      case Oled => "OLED"
      case GreenPos => "YOSPOS"
      case AmberPos => "AMBERPOS"
      case Fyad => "FYAD"
      case Byob => "BYOB"
      case Classic => "Classic"
      case Custom => "Custom"
      case CustomDark => "Custom dark"
    }

    /**
     The bundled CSS file. It identifies an app theme; for a custom theme it
     is the fallback file used when the user's CSS cannot be read.
     */
    function CssFilename(): string {
      match this
      case Default => "default.css"
      case Dark => "dark.css"
      case Oled => "oled.css"
      case GreenPos => "yospos.css"
      case AmberPos => "amberpos.css"
      case Fyad => "fyad.css"
      case Byob => "byob.css"
      case Classic => "classic.css"
      case Custom => "default.css"
      case CustomDark => "dark.css"
    }

    /** The style resource the Android theme is built from. */
    function ThemeResId(): StyleRes {
      match this
      case Default => ThemeAwfulTheme
      case Dark => ThemeAwfulThemeDark
      case Oled => ThemeAwfulThemeOled
      case GreenPos => ThemeAwfulThemeYospos
      case AmberPos => ThemeAwfulThemeAmberpos
      case Fyad => ThemeAwfulThemeFyad
      case Byob => ThemeAwfulThemeByob
      case Classic => ThemeAwfulTheme
      case Custom => ThemeAwfulTheme
      case CustomDark => ThemeAwfulThemeDark
    }

    /** `toString` shows the display name. */
    function ToString(): string {
      DisplayName()
    }

    /** One of the two user-theme placeholders. */
    predicate IsCustom() {
      this in CustomThemes
    }
  }

  /** `AwfulTheme.values()`. */
  const AllThemes: seq<Theme> :=
    [Default, Dark, Oled, GreenPos, AmberPos, Fyad, Byob, Classic, Custom, CustomDark]

  /** `CUSTOM_THEMES`. */
  const CustomThemes: seq<Theme> := [Custom, CustomDark]

  /**
   `APP_THEMES`, which the static initialiser computes as
   `RemoveAll(AllThemes, CustomThemes)`; the lemma
   `ThemeProperties.AppThemesInDeclarationOrder` proves this list is that value.
   */
  const AppThemes: seq<Theme> := [Default, Dark, Oled, GreenPos, AmberPos, Fyad, Byob, Classic]

  /** The asset directory holding the bundled CSS files. */
  const AppCssPath: string := "file:///android_asset/css/"

  /** The text of the toast shown when storage may be read but the custom CSS file is not a readable regular file. */
  const ThemeCssFileError: string := "Theme CSS file error!"

  /**
   `ArrayList.removeAll`: drops every element that occurs in `drop` and keeps
   the others in their order.
   */
  function RemoveAll<T(==,!new)>(s: seq<T>, drop: seq<T>): (r: seq<T>)
    ensures |r| <= |s|
    ensures forall x :: x in r <==> x in s && x !in drop
    ensures forall i :: 0 <= i < |r| ==> r[i] !in drop
  {
    if |s| == 0 then []
    else if s[0] in drop then RemoveAll(s[1..], drop)
    else [s[0]] + RemoveAll(s[1..], drop)
  }

  /** The user settings the resolver reads from `AwfulPreferences`. */
  datatype Preferences = Preferences(
    theme: Option<string>,
    forceForumThemes: bool,
    amberDefaultPos: bool)

  /**
   The forum IDs of `Constants` that have a theme of their own. Their numbers
   are not part of this model; a Java `switch` needs them to be distinct.
   */
  datatype ForumIds = ForumIds(fyad: int, fyadSub: int, byob: int, coolCrew: int, yospos: int)
  {
    predicate Distinct() {
      |Themed()| == 5
    }

    /** The forums the override table names. */
    function Themed(): set<int> {
      {fyad, fyadSub, byob, coolCrew, yospos}
    }
  }

  /**
   `themeForForumId`: the forum's own theme, if the override table has one.
   Only app themes are ever returned.
   */
  function ThemeForForumId(forumId: int, prefs: Preferences, ids: ForumIds): (r: Option<Theme>)
    ensures r.Some? <==> forumId in ids.Themed()
    ensures r.Some? ==> r.value in AppThemes
  {
    if forumId == ids.fyad || forumId == ids.fyadSub then Some(Fyad)
    else if forumId == ids.byob || forumId == ids.coolCrew then Some(Byob)
    else if forumId == ids.yospos then Some(if prefs.amberDefaultPos then AmberPos else GreenPos)
    else None
  }

  /** No earlier theme in `themes` than index `k` has a CSS filename equal to `name` ignoring case. */
  predicate NoMatchBefore(themes: seq<Theme>, name: string, k: int)
    requires k <= |themes|
  {
    forall j :: 0 <= j < k ==> !EqualsIgnoreCase(themes[j].CssFilename(), name)
  }

  /**
   The loop of `themeForCssFilename`: the first theme whose CSS filename
   equals `name` ignoring case, or none.
   */
  function FindTheme(themes: seq<Theme>, name: string): (r: Option<Theme>)
    ensures r.None? <==> NoMatchBefore(themes, name, |themes|)
    ensures r.Some? ==> exists k :: 0 <= k < |themes| && themes[k] == r.value && NoMatchBefore(themes, name, k)
    ensures r.Some? ==> EqualsIgnoreCase(r.value.CssFilename(), name)
  {
    if |themes| == 0 then None
    else if EqualsIgnoreCase(themes[0].CssFilename(), name) then Some(themes[0])
    else
      var r := FindTheme(themes[1..], name);
      assert forall j :: 1 <= j <= |themes| ==> themes[1..][..j - 1] == themes[1..j];
      assert r.Some? ==> exists k :: 1 <= k < |themes| && themes[k] == r.value && NoMatchBefore(themes, name, k) by {
        if r.Some? {
          var k :| 0 <= k < |themes| - 1 && themes[1..][k] == r.value && NoMatchBefore(themes[1..], name, k);
          assert themes[k + 1] == r.value && NoMatchBefore(themes, name, k + 1);
        }
      }
      r
  }

  /**
   `themeForCssFilename`: an empty name is the default theme; a name matching an
   app theme's CSS filename ignoring case is that theme; any other name is a
   user theme, the dark one when the name contains `.dark`.
   */
  function ThemeForCssFilename(themeName: Option<string>): (r: Theme)
    ensures IsEmpty(themeName) ==> r == Default
    ensures r.IsCustom() <==> !IsEmpty(themeName) && NoMatchBefore(AppThemes, themeName.value, |AppThemes|)
    ensures r.IsCustom() ==> (r == CustomDark <==> Contains(themeName.value, ".dark"))
    ensures !r.IsCustom() && !IsEmpty(themeName) ==> r in AppThemes && EqualsIgnoreCase(r.CssFilename(), themeName.value)
  {
    if IsEmpty(themeName) then Default
    else
      match FindTheme(AppThemes, themeName.value)
      case Some(t) => t
      case None => if Contains(themeName.value, ".dark") then CustomDark else Custom
  }

  /**
   `forForum`: with per-forum themes switched on and a forum given, the
   forum's override if it has one; otherwise the stored preference.
   */
  function ForForum(forumId: Option<int>, prefs: Preferences, ids: ForumIds): (r: Theme)
    ensures r.IsCustom() ==> r == ThemeForCssFilename(prefs.theme)
  {
    var forumTheme := if forumId.Some? && prefs.forceForumThemes then ThemeForForumId(forumId.value, prefs, ids) else None;
    if forumTheme.Some? then forumTheme.value else ThemeForCssFilename(prefs.theme)
  }

  /**
   The platform state `getCssPath` consults: whether READ_EXTERNAL_STORAGE is
   granted, whether the device runs KitKat or later, the external storage
   directory, and the paths that are readable regular files.
   */
  datatype Device = Device(
    permissionGranted: bool,
    isKitKat: bool,
    externalStorage: string,
    readableFiles: set<string>)

  /** `getCustomThemePath`: the `awful` directory on external storage. */
  function CustomThemePath(device: Device): string {
    device.externalStorage + "/awful/"
  }

  /** `new File(CUSTOM_THEME_PATH, name).getPath()`, without path normalisation. */
  function CustomCssFile(device: Device, name: string): string {
    CustomThemePath(device) + name
  }

  /** `Resources.getString` names and literal texts a toast can show. */
  datatype StringRes = NoFilePermissionTheme
  datatype Toast = ResourceToast(res: StringRes) | TextToast(text: string)

  /** What `getCssPath` returns, with the toast it shows on the way, if any. */
  datatype CssPath = CssPath(url: string, toast: Option<Toast>)

  /** The exception `new File(parent, null)` throws. */
  datatype JavaException = NullPointerException

  /** Storage may be read: permission granted, or a device before KitKat, which does not enforce it. */
  predicate MayReadStorage(device: Device) {
    device.permissionGranted || !device.isKitKat
  }

  /**
   `getCssPath`: an app theme's bundled CSS. A user theme's CSS is the file
   named by the stored preference under the custom theme path, when storage
   may be read and that file is readable; otherwise the theme's bundled
   fallback, with a toast saying why.
   */
  function GetCssPath(t: Theme, prefs: Preferences, device: Device): (r: Result<CssPath, JavaException>)
    ensures !t.IsCustom() ==> r == Ok(CssPath(AppCssPath + t.CssFilename(), None))
    ensures r.Err? <==> t.IsCustom() && MayReadStorage(device) && prefs.theme.None?
    ensures r.Ok? && r.value.toast.None? && t.IsCustom() ==>
      prefs.theme.Some? && CustomCssFile(device, prefs.theme.value) in device.readableFiles &&
      r.value.url == "file:///" + CustomCssFile(device, prefs.theme.value)
    ensures r.Ok? && r.value.toast.Some? ==> t.IsCustom() && r.value.url == AppCssPath + t.CssFilename()
    ensures r.Ok? && r.value.toast == Some(ResourceToast(NoFilePermissionTheme)) <==> t.IsCustom() && !MayReadStorage(device)
  {
    if !t.IsCustom() then
      Ok(CssPath(AppCssPath + t.CssFilename(), None))
    else if MayReadStorage(device) then
      match prefs.theme
      case None => Err(NullPointerException)
      case Some(name) =>
        var cssFile := CustomCssFile(device, name);
        if cssFile in device.readableFiles then Ok(CssPath("file:///" + cssFile, None))
        else Ok(CssPath(AppCssPath + t.CssFilename(), Some(TextToast(ThemeCssFileError))))
    else
      Ok(CssPath(AppCssPath + t.CssFilename(), Some(ResourceToast(NoFilePermissionTheme))))
  }
}
