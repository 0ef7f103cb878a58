# Awful theme resolution, in Dafny

A model of `AwfulTheme`, the theme registry of the Awful forum reader for
Android. The registry is a closed enum of ten themes. Eight are app themes
shipped with the app, and two (`CUSTOM`, `CUSTOM_DARK`) stand for a
stylesheet the user supplies on external storage. It answers two questions:

- which theme applies (`forForum`). A per-forum override comes first when the
  "force forum themes" preference is on. Otherwise the stored preference
  applies, a CSS filename resolved by `themeForCssFilename`.
- which CSS file the thread view loads (`getCssPath`). An app theme uses its
  bundled asset. A custom theme uses the user's file, and falls back to a
  bundled file with a toast when the file cannot be read.

Files:

- `wrappers.dfy`: `Option` for Java's nullable references and `Result` for a
  thrown exception.
- `java_strings.dfy`: the string operations the resolver depends on.
  `StringUtils.isEmpty`, `String.equalsIgnoreCase` with Java's
  per-character rule, and `String.contains`. `equalsIgnoreCase` is proved
  equal to case-folding when one side is lower case, and `contains` to an
  occurrence at some index; `isEmpty` is its definition.
- `awful_theme.dfy`: the enum and its fields, `APP_THEMES`/`CUSTOM_THEMES`,
  `themeForForumId`, `forForum`, `themeForCssFilename`, `getCssPath` and
  `toString`.
- `theme_properties.dfy`: lemmas relating the operations to each other and
  to the registry's promises.

Inputs that Java reads from globals or from the platform are parameters here:

- `Preferences` stands for the `AwfulPreferences` singleton. It holds the
  stored theme name (nullable), `forceForumThemes` and `amberDefaultPos`.
- `ForumIds` holds the five `Constants.FORUM_ID_*` values that have a theme.
  Their numbers are not part of this model. A Java `switch` needs the labels
  to be distinct, and the lemmas assume this as `Distinct()`.
- `Device` stands for the state `getCssPath` consults: whether
  READ_EXTERNAL_STORAGE is granted, whether the device runs KitKat or later,
  the external storage directory, and the set of paths that are readable
  regular files.
  `CustomThemePath` models `CUSTOM_THEME_PATH` and `getCustomThemePath`: the
  `awful` directory under that external storage directory. `CustomCssFile`
  is the custom theme's file in it.
- The toast `getCssPath` shows is returned next to the path. It is either
  the `no_file_permission_theme` string resource or the text
  `Theme CSS file error!`.

## Model

| member | source | states |
|---|---|---|
| AwfulTheme.RemoveAll | Awful.apk/src/main/java/com/ferg/awfulapp/provider/AwfulTheme.java:71-76 | `removeAll` keeps exactly the elements not in the removed list, and nothing else survives |
| ThemeProperties.AppThemesInDeclarationOrder | Awful.apk/src/main/java/com/ferg/awfulapp/provider/AwfulTheme.java:71-76 | removing `CUSTOM_THEMES` from `values()` leaves the eight app themes in declaration order |
| ThemeProperties.AppThemesAreTheNonCustom | Awful.apk/src/main/java/com/ferg/awfulapp/provider/AwfulTheme.java:53-57 | a theme is in `APP_THEMES` exactly when it is neither `CUSTOM` nor `CUSTOM_DARK` |
| ThemeProperties.AppCssFilenameIdentifies | Awful.apk/src/main/java/com/ferg/awfulapp/provider/AwfulTheme.java:89-98 | within `APP_THEMES` the CSS filename is unique, so it identifies the theme |
| ThemeProperties.CssFilenameIsCanonical | Awful.apk/src/main/java/com/ferg/awfulapp/provider/AwfulTheme.java:44-57 | every CSS filename is written in lower case, so matching it ignoring case is well defined |
| JavaStrings.EqualsIgnoreCaseCanonical | Awful.apk/src/main/java/com/ferg/awfulapp/provider/AwfulTheme.java:172 | against a lower-case filename, `equalsIgnoreCase` holds exactly when the name case-folds to that filename |
| JavaStrings.CanonicalMatchIsUnique | Awful.apk/src/main/java/com/ferg/awfulapp/provider/AwfulTheme.java:172 | no name equals two different lower-case filenames ignoring case |
| ThemeProperties.AppThemeMatchIsUnique | Awful.apk/src/main/java/com/ferg/awfulapp/provider/AwfulTheme.java:171-175 | at most one app theme matches a name, so the lookup's first match is its only match |
| JavaStrings.ContainsIffOccurs | Awful.apk/src/main/java/com/ferg/awfulapp/provider/AwfulTheme.java:177 | `contains` holds exactly when the substring occurs, case-sensitively, at some index |
| AwfulTheme.ThemeForForumId | Awful.apk/src/main/java/com/ferg/awfulapp/provider/AwfulTheme.java:125-138 | a forum has an override exactly when it is one of the five themed forums, and an override is always an app theme |
| AwfulTheme.FindTheme | Awful.apk/src/main/java/com/ferg/awfulapp/provider/AwfulTheme.java:171-175 | the loop returns the first theme whose filename equals the name ignoring case, and nothing when no theme matches |
| AwfulTheme.ThemeForCssFilename | Awful.apk/src/main/java/com/ferg/awfulapp/provider/AwfulTheme.java:166-178 | an empty name gives `DEFAULT`; the result is a custom theme exactly when no app theme matches; it is `CUSTOM_DARK` exactly when the name contains `.dark`; otherwise it is the app theme whose filename matches |
| ThemeProperties.EmptyNameIsDefault | Awful.apk/src/main/java/com/ferg/awfulapp/provider/AwfulTheme.java:166-169 | a null or empty stored name gives `DEFAULT` |
| ThemeProperties.AppThemeNameResolves | Awful.apk/src/main/java/com/ferg/awfulapp/provider/AwfulTheme.java:171-175 | a non-empty name gives an app theme exactly when it equals that theme's filename ignoring case |
| ThemeProperties.UnmatchedNameIsCustom | Awful.apk/src/main/java/com/ferg/awfulapp/provider/AwfulTheme.java:176-177 | a name matching no app theme gives `CUSTOM_DARK` when it contains `.dark`, and `CUSTOM` otherwise |
| ThemeProperties.ExampleUpperCaseDefault | Awful.apk/src/main/java/com/ferg/awfulapp/provider/AwfulTheme.java:171-175 | `DEFAULT.CSS` gives `DEFAULT` |
| ThemeProperties.ExampleDark | Awful.apk/src/main/java/com/ferg/awfulapp/provider/AwfulTheme.java:171-175 | `dark.css` gives the app theme `DARK`, not `CUSTOM_DARK` |
| ThemeProperties.ExampleCustomLight | Awful.apk/src/main/java/com/ferg/awfulapp/provider/AwfulTheme.java:177 | `something.css` gives `CUSTOM` |
| ThemeProperties.ExampleCustomDark | Awful.apk/src/main/java/com/ferg/awfulapp/provider/AwfulTheme.java:177 | `something.dark.css` gives `CUSTOM_DARK` |
| ThemeProperties.ExampleCustomUpperCaseDark | Awful.apk/src/main/java/com/ferg/awfulapp/provider/AwfulTheme.java:177 | `something.DARK.css` gives `CUSTOM`, because the `.dark` test is case-sensitive |
| AwfulTheme.ForForum | Awful.apk/src/main/java/com/ferg/awfulapp/provider/AwfulTheme.java:148-156 | a custom theme is only ever the stored preference's theme, never a forum override |
| ThemeProperties.ForForumWithoutOverride | Awful.apk/src/main/java/com/ferg/awfulapp/provider/AwfulTheme.java:148-156 | with no forum, or with forum themes off, the result is the stored preference's theme whatever the forum |
| ThemeProperties.ForForumOverride | Awful.apk/src/main/java/com/ferg/awfulapp/provider/AwfulTheme.java:125-155 | with forum themes on: FYAD and its sub-forum give `FYAD`; BYOB and COOL_CREW give `BYOB`; YOSPOS gives `AMBERPOS` or `GREENPOS` by `amberDefaultPos`; any other forum gives the stored preference's theme |
| ThemeProperties.ForForumOverrideIgnoresStoredTheme | Awful.apk/src/main/java/com/ferg/awfulapp/provider/AwfulTheme.java:150-155 | for a forum with its own theme, the stored theme name makes no difference |
| AwfulTheme.GetCssPath | Awful.apk/src/main/java/com/ferg/awfulapp/provider/AwfulTheme.java:187-215 | an app theme gets its bundled asset and no toast. A toast is shown only for a custom theme, and always with the bundled fallback. No toast for a custom theme means the user's file was readable and is the one loaded. The permission toast appears exactly when storage may not be read. An exception escapes only when the stored name is null |
| ThemeProperties.CustomThemeCssPath | Awful.apk/src/main/java/com/ferg/awfulapp/provider/AwfulTheme.java:194-213 | a custom theme loads `file:///` plus the user's file when permission is granted or the device is pre-KitKat and the file is readable. Otherwise it loads the bundled fallback with exactly one toast: the permission message when permission is missing on KitKat, and `Theme CSS file error!` otherwise |
| ThemeProperties.FallbackCssIsBundled | Awful.apk/src/main/java/com/ferg/awfulapp/provider/AwfulTheme.java:53-57 | every theme's CSS filename is one an app theme ships: `default.css` for `CUSTOM`, `dark.css` for `CUSTOM_DARK` |
| ThemeProperties.ResolvedThemeCssPathSucceeds | Awful.apk/src/main/java/com/ferg/awfulapp/provider/AwfulTheme.java:194-204 | for a theme obtained from `forForum`, `getCssPath` with the same preferences never throws: a custom theme only comes from a non-empty stored name |
| ThemeProperties.ToStringIsInjective | Awful.apk/src/main/java/com/ferg/awfulapp/provider/AwfulTheme.java:217-220 | `toString`, which returns the display name, tells the themes apart: no two themes share a display name |

## Left out

- `getTheme` builds an Android `Resources.Theme` from `themeResId`. It is a framework call with no logic of its own. The style resources are kept only as opaque names (`StyleRes`).
- The toast is returned as a value rather than shown: `Toast.makeText` becomes the `toast` field of the returned `CssPath`. The other platform calls become fields of `Device`: `ContextCompat.checkSelfPermission` becomes `permissionGranted`, `isKitKat()` becomes `isKitKat`, and `File.isFile()` together with `File.canRead()` become membership in `readableFiles`.
- `Environment.getExternalStorageDirectory()` is the `externalStorage` field of `Device`.
- `CustomCssFile` models `new File(CUSTOM_THEME_PATH, name).getPath()` as plain concatenation. It leaves out `java.io.File` path normalisation, such as collapsing repeated or trailing separators.
- The numeric values of the `Constants.FORUM_ID_*` constants are parameters (`ForumIds`).
- `AwfulPreferences.getInstance()` is replaced by an explicit `Preferences` argument. `getCssPath` reads the stored name from the same value that `forForum` received.
- `JavaStrings.ToUpper`/`ToLower` model `Character.toUpperCase`/`toLowerCase` only for the characters whose case mapping is or reaches ASCII: `a`-`z`, `A`-`Z`, U+0130, U+0131, U+017F and U+212A. Every other character is left unchanged. `equalsIgnoreCase` is therefore exact whenever one side is ASCII, which every app theme's filename is. It is not exact for two non-ASCII names such as `é`/`É`.
- Java strings are sequences of UTF-16 code units, while Dafny's are sequences of Unicode scalar values. A character outside the Basic Multilingual Plane counts as two characters in Java and as one here. Such a character never matches an ASCII filename, so resolution is unaffected.
- The find-bar search widget that shares the repository with this class is not part of this model. It is UI event wiring over the web view's find-in-page API.
