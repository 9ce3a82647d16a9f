/**
 * The translation record that file_handler.py keeps for every extracted
 * 'key' => 'value' pair (a dict in the program, with fixed fields).
 */
module Records {
  import opened Strings

  datatype TranslationItem = TranslationItem(
    lineNumber: nat,          // 1-based number of the line the pair was found on
    key: String,
    originalValue: String,
    translatedValue: String,
    isTranslated: bool,
    originalLine: String,
    needsTranslation: bool,
    patternUsed: nat,         // which of the four quote patterns matched (0..3)
    translationType: String   // "none", "manual" or "auto"
  )
}
