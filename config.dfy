/**
 * The constants of config.py that the game engine reads: the join timeout,
 * the theme table and the key under which a theme stores its empty-cell emoji.
 */
module Config {

  type Theme = map<string, string>

  /** Seconds a new two-player game waits for its second player. */
  const GameTimeoutSeconds: nat := 90

  const DefaultThemeKey: string := "classic"

  /** The theme key of the emoji drawn on an empty cell. */
  const EmptyCellSymbol: string := "empty"

  const Themes: map<string, Theme> := map[
    "classic" := map["name" := "Классика", "X" := "❌", "O" := "⭕", EmptyCellSymbol := "⬜",
                     "X_win" := "⭐❌⭐", "O_win" := "⭐⭕⭐"],
    "animals" := map["name" := "Животные", "X" := "🐱", "O" := "🐶", EmptyCellSymbol := "🐾",
                     "X_win" := "🏆🐱🏆", "O_win" := "🏆🐶🏆"],
    "food"    := map["name" := "Еда", "X" := "🍕", "O" := "🍔", EmptyCellSymbol := "▫️",
                     "X_win" := "🌟🍕🌟", "O_win" := "🌟🍔🌟"]
  ]

  /** `THEMES.get(key, THEMES[DEFAULT_THEME_KEY])`: an unknown key falls back to the classic theme. */
  function ThemeFor(key: string): (t: Theme)
    ensures key in Themes ==> t == Themes[key]
    ensures key !in Themes ==> t == Themes[DefaultThemeKey]
  {
    if key in Themes then Themes[key] else Themes[DefaultThemeKey]
  }
}
