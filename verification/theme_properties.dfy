/**
 Properties of the theme registry: what `APP_THEMES` holds, how a stored name
 resolves, the forum override precedence, and where the CSS comes from.
 */
module ThemeProperties {
  import opened Wrappers
  import opened JavaStrings
  import opened AwfulTheme

  /** `removeAll` over a concatenation filters each part on its own. */
  lemma {:induction false} RemoveAllAppend<T(!new)>(a: seq<T>, b: seq<T>, drop: seq<T>)
    ensures RemoveAll(a + b, drop) == RemoveAll(a, drop) + RemoveAll(b, drop)
  {
    if |a| > 0 {
      assert (a + b)[1..] == a[1..] + b;
      RemoveAllAppend(a[1..], b, drop);
    } else {
      assert a + b == b;
    }
  }

  /** `removeAll` leaves a list with nothing to remove unchanged. */
  lemma {:induction false} RemoveAllKeeps<T(!new)>(s: seq<T>, drop: seq<T>)
    requires forall x :: x in s ==> x !in drop
    ensures RemoveAll(s, drop) == s
  {
    if |s| > 0 {
      RemoveAllKeeps(s[1..], drop);
    }
  }

  /** `removeAll` empties a list whose every element is to be removed. */
  lemma {:induction false} RemoveAllDropsAll<T(!new)>(s: seq<T>, drop: seq<T>)
    requires forall x :: x in s ==> x in drop
    ensures RemoveAll(s, drop) == []
  {
    if |s| > 0 {
      RemoveAllDropsAll(s[1..], drop);
    }
  }

  /** Removing `drop` from a list that ends with it leaves exactly the part before. */
  lemma RemoveAllKeepThenDrop<T(!new)>(keep: seq<T>, drop: seq<T>)
    requires forall x :: x in keep ==> x !in drop
    ensures RemoveAll(keep + drop, drop) == keep
  {
    RemoveAllAppend(keep, drop, drop);
    RemoveAllKeeps(keep, drop);
    RemoveAllDropsAll(drop, drop);
  }

  /** `APP_THEMES` is every enum value except the two custom ones, in declaration order. */
  lemma AppThemesInDeclarationOrder()
    ensures RemoveAll(AllThemes, CustomThemes) == AppThemes
  {
    assert AllThemes == AppThemes + CustomThemes;
    RemoveAllKeepThenDrop(AppThemes, CustomThemes);
  }

  /** A theme is an app theme exactly when it is not a custom one. */
  lemma AppThemesAreTheNonCustom(t: Theme)
    ensures t in AppThemes <==> !t.IsCustom()
  {
  }

  /**
   The app themes' CSS filenames are pairwise distinct: the filename
   identifies the app theme.
   */
  lemma AppCssFilenameIdentifies(t: Theme, u: Theme)
    requires t in AppThemes && u in AppThemes
    requires t.CssFilename() == u.CssFilename()
    ensures t == u
  {
    AppThemesAreTheNonCustom(t);
    AppThemesAreTheNonCustom(u);
  }

  /** Every CSS filename is written in lower case, its own case-class representative. */
  lemma CssFilenameIsCanonical(t: Theme)
    ensures IsCanonical(t.CssFilename())
  {
    var f := t.CssFilename();
    forall i | 0 <= i < |f|
      ensures Fold(f[i]) == f[i]
    {
      assert f[i] == '.' || 'a' <= f[i] <= 'z';
    }
  }

  /** Two app themes whose CSS filenames both equal `name` ignoring case are the same theme. */
  lemma AppThemeMatchIsUnique(t: Theme, u: Theme, name: string)
    requires t in AppThemes && u in AppThemes
    requires EqualsIgnoreCase(t.CssFilename(), name) && EqualsIgnoreCase(u.CssFilename(), name)
    ensures t == u
  {
    CssFilenameIsCanonical(t);
    CssFilenameIsCanonical(u);
    CanonicalMatchIsUnique(t.CssFilename(), u.CssFilename(), name);
    AppCssFilenameIdentifies(t, u);
  }

  /** A null or empty stored name resolves to the default theme. */
  lemma EmptyNameIsDefault()
    ensures ThemeForCssFilename(None) == Default
    ensures ThemeForCssFilename(Some("")) == Default
  {
  }

  /**
   A non-empty name resolves to an app theme exactly when it equals that
   theme's CSS filename ignoring case.
   */
  lemma AppThemeNameResolves(t: Theme, name: string)
    requires t in AppThemes && |name| > 0
    ensures ThemeForCssFilename(Some(name)) == t <==> EqualsIgnoreCase(t.CssFilename(), name)
  {
    var r := ThemeForCssFilename(Some(name));
    if EqualsIgnoreCase(t.CssFilename(), name) {
      assert !NoMatchBefore(AppThemes, name, |AppThemes|);
      AppThemeMatchIsUnique(r, t, name);
    }
  }

  /**
   A non-empty name that matches no app theme resolves to a custom theme:
   the dark one exactly when it contains `.dark`, compared case-sensitively.
   */
  lemma UnmatchedNameIsCustom(name: string)
    requires |name| > 0
    requires forall t :: t in AppThemes ==> !EqualsIgnoreCase(t.CssFilename(), name)
    ensures ThemeForCssFilename(Some(name)) == if Contains(name, ".dark") then CustomDark else Custom
  {
  }

  /** `DEFAULT.CSS` equals the default theme's CSS filename ignoring case. */
  lemma UpperCaseDefaultMatches()
    ensures EqualsIgnoreCase(Default.CssFilename(), "DEFAULT.CSS")
  {
  }

  /** An app theme's name in upper case still resolves to it. */
  lemma ExampleUpperCaseDefault()
    ensures ThemeForCssFilename(Some("DEFAULT.CSS")) == Default
  {
    UpperCaseDefaultMatches();
    AppThemesAreTheNonCustom(Default);
    AppThemeNameResolves(Default, "DEFAULT.CSS");
  }

  /** `dark.css` is the app's dark theme, not the dark custom theme. */
  lemma ExampleDark()
    ensures ThemeForCssFilename(Some("dark.css")) == Dark
  {
    AppThemesAreTheNonCustom(Dark);
    AppThemeNameResolves(Dark, "dark.css");
  }

  /** No app theme's CSS filename is longer than twelve characters. */
  lemma LongNameMatchesNoAppTheme(name: string)
    requires |name| > 12
    ensures forall t :: t in AppThemes ==> !EqualsIgnoreCase(t.CssFilename(), name)
  {
    forall t | t in AppThemes
      ensures |t.CssFilename()| <= 12
    {
      AppThemesAreTheNonCustom(t);
    }
  }

  /** Neither `.` followed by `d` nor, therefore, `.dark` occurs in the name. */
  lemma NoDotD(s: string)
    requires forall i :: 0 <= i < |s| - 1 ==> s[i] != '.' || s[i + 1] != 'd'
    ensures !Contains(s, ".dark")
  {
    ContainsIffOccurs(s, ".dark");
    if Contains(s, ".dark") {
      var i: nat :| OccursAt(s, ".dark", i);
      OccursAtChars(s, ".dark", i);
      assert false;
    }
  }

  /** An unknown name without `.dark` is the light custom theme. */
  lemma ExampleCustomLight()
    ensures ThemeForCssFilename(Some("something.css")) == Custom
  {
    var name := "something.css";
    LongNameMatchesNoAppTheme(name);
    NoDotD(name);
    UnmatchedNameIsCustom(name);
  }

  /** An unknown name containing `.dark` is the dark custom theme. */
  lemma ExampleCustomDark()
    ensures ThemeForCssFilename(Some("something.dark.css")) == CustomDark
  {
    var name := "something.dark.css";
    LongNameMatchesNoAppTheme(name);
    assert OccursAt(name, ".dark", 9);
    ContainsIffOccurs(name, ".dark");
    UnmatchedNameIsCustom(name);
  }

  /** The `.dark` test is case-sensitive: `.DARK` gives the light custom theme. */
  lemma ExampleCustomUpperCaseDark()
    ensures ThemeForCssFilename(Some("something.DARK.css")) == Custom
  {
    var name := "something.DARK.css";
    LongNameMatchesNoAppTheme(name);
    NoDotD(name);
    UnmatchedNameIsCustom(name);
  }

  /**
   With no forum, or with per-forum themes switched off, the forum plays no
   part: the stored preference decides.
   */
  lemma ForForumWithoutOverride(forumId: Option<int>, prefs: Preferences, ids: ForumIds)
    requires forumId.None? || !prefs.forceForumThemes
    ensures ForForum(forumId, prefs, ids) == ThemeForCssFilename(prefs.theme)
  {
  }

  /**
   With per-forum themes switched on, the override table wins over the stored
   preference, and every other forum falls back to the stored preference.
   */
  lemma ForForumOverride(forumId: int, prefs: Preferences, ids: ForumIds)
    requires ids.Distinct() && prefs.forceForumThemes
    ensures forumId == ids.fyad || forumId == ids.fyadSub ==> ForForum(Some(forumId), prefs, ids) == Fyad
    ensures forumId == ids.byob || forumId == ids.coolCrew ==> ForForum(Some(forumId), prefs, ids) == Byob
    ensures forumId == ids.yospos ==>
      ForForum(Some(forumId), prefs, ids) == if prefs.amberDefaultPos then AmberPos else GreenPos
    ensures forumId !in ids.Themed() ==> ForForum(Some(forumId), prefs, ids) == ThemeForCssFilename(prefs.theme)
  {
  }

  /** For a forum with its own theme, the stored theme name makes no difference. */
  lemma ForForumOverrideIgnoresStoredTheme(forumId: int, prefs: Preferences, other: Option<string>, ids: ForumIds)
    requires prefs.forceForumThemes && forumId in ids.Themed()
    ensures ForForum(Some(forumId), prefs, ids) == ForForum(Some(forumId), prefs.(theme := other), ids)
  {
  }

  /**
   The bundled CSS a theme falls back to is always one an app theme ships:
   `default.css` for the light custom theme and `dark.css` for the dark one.
   */
  lemma FallbackCssIsBundled(t: Theme)
    ensures exists a :: a in AppThemes && a.CssFilename() == t.CssFilename()
    ensures t == Custom ==> t.CssFilename() == Default.CssFilename()
    ensures t == CustomDark ==> t.CssFilename() == Dark.CssFilename()
  {
    if t.IsCustom() {
      assert (if t == Custom then Default else Dark) in AppThemes;
    } else {
      assert t in AppThemes;
    }
  }

  /**
   A custom theme's CSS: the user's file when storage may be read and the file
   is readable; otherwise the bundled fallback with exactly one toast, the
   permission message when KitKat's permission is missing and the file error
   message otherwise.
   */
  lemma CustomThemeCssPath(t: Theme, name: string, prefs: Preferences, device: Device)
    requires t.IsCustom() && prefs.theme == Some(name)
    ensures var file := CustomCssFile(device, name);
      if MayReadStorage(device) && file in device.readableFiles then
        GetCssPath(t, prefs, device) == Ok(CssPath("file:///" + file, None))
      else if MayReadStorage(device) then
        GetCssPath(t, prefs, device) == Ok(CssPath(AppCssPath + t.CssFilename(), Some(TextToast("Theme CSS file error!"))))
      else
        GetCssPath(t, prefs, device) == Ok(CssPath(AppCssPath + t.CssFilename(), Some(ResourceToast(NoFilePermissionTheme))))
  {
  }

  /**
   A theme obtained through `forForum` never makes `getCssPath` throw: a custom
   theme only comes from a non-empty stored name, which names the file to read.
   */
  lemma ResolvedThemeCssPathSucceeds(forumId: Option<int>, prefs: Preferences, ids: ForumIds, device: Device)
    ensures GetCssPath(ForForum(forumId, prefs, ids), prefs, device).Ok?
  {
    var t := ForForum(forumId, prefs, ids);
    if t.IsCustom() {
      assert t == ThemeForCssFilename(prefs.theme);
      assert !IsEmpty(prefs.theme);
    }
  }

  /** `toString` tells the themes apart. */
  lemma ToStringIsInjective(t: Theme, u: Theme)
    requires t.ToString() == u.ToString()
    ensures t == u
  {
  }
}
