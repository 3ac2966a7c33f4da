/**
 * The read-only records the client receives from the hosted backend: a root word, its
 * inflected forms with their embedded form type, the example sentences tied to those
 * forms, and the rows of the search service. Nullable columns are `Option`s; the floating
 * point `rank` and `similarity` of a search row are carried untouched as reals.
 */
module Records {
  import opened Wrappers

  datatype FormType = FormType(name: string, category: string, explanation: Option<string>)

  /** `formType` is `None` when the joined form-type row is missing. */
  datatype WordForm = WordForm(
    id: int,
    formInCzech: string,
    formTypeId: int,
    gender: Option<string>,
    plurality: string,
    person: Option<string>,
    tense: Option<string>,
    isPrimary: bool,
    formType: Option<FormType>)

  datatype ExampleSentence = ExampleSentence(
    id: int,
    czechSentence: string,
    englishSentence: string,
    explanation: Option<string>,
    wordFormId: int)

  datatype RootWord = RootWord(
    id: int,
    inCzech: string,
    inEnglish: string,
    wordType: string,
    wordAspect: Option<string>,
    note: Option<string>)

  datatype SearchResult = SearchResult(
    rootWordId: int,
    rootWordCzech: string,
    rootWordEnglish: string,
    wordType: string,
    wordAspect: Option<string>,
    matchedForm: string,
    formTypeName: string,
    rank: real,
    similarity: real,
    exampleCzech: Option<string>,
    exampleEnglish: Option<string>,
    rootWordNote: Option<string>)

  /** JavaScript truthiness of a nullable string: present and not empty. */
  predicate Truthy(s: Option<string>) {
    s.Some? && s.value != ""
  }
}
