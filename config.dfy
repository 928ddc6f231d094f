/** The constants of config.py that the core uses. */
module Config {

  const Basic := "Python Básico"
  const Intermediate := "Python Intermedio"
  const Advanced := "Python Avanzado"

  /** Config.LESSON_CATEGORIES, in its order. */
  const LessonCategories: seq<string> := [Basic, Intermediate, Advanced]
}
