/**
 * The enumerations of the hosted database schema. The records the client receives carry
 * these as plain strings; the enumerations are used to state what the lookup tables do
 * on every value the database can produce.
 */
module Schema {

  datatype FormTypeCategory = Case | Tense | Mood | Voice | Participle | Degree | VerbalNoun {
    function Name(): string {
      match this
      case Case => "case"
      case Tense => "tense"
      case Mood => "mood"
      case Voice => "voice"
      case Participle => "participle"
      case Degree => "degree"
      case VerbalNoun => "verbal_noun"
    }
  }

  datatype Gender = MasculineAnimate | Feminine | Neuter | MasculineInanimate | Masculine {
    function Name(): string {
      match this
      case MasculineAnimate => "masculine_animate"
      case Feminine => "feminine"
      case Neuter => "neuter"
      case MasculineInanimate => "masculine_inanimate"
      case Masculine => "masculine"
    }
  }

  datatype Person = First | Second | Third {
    function Name(): string {
      match this
      case First => "1"
      case Second => "2"
      case Third => "3"
    }
  }

  datatype Plurality = Singular | Plural {
    function Name(): string {
      match this
      case Singular => "singular"
      case Plural => "plural"
    }
  }

  datatype TenseValue = Present | Past | Future {
    function Name(): string {
      match this
      case Present => "present"
      case Past => "past"
      case Future => "future"
    }
  }

  datatype WordAspect = Perfective | Imperfective {
    function Name(): string {
      match this
      case Perfective => "perfective"
      case Imperfective => "imperfective"
    }
  }

  datatype WordType = Noun | Verb | Pronoun | Adjective | Adverb | Preposition | Conjunction | Numeral {
    function Name(): string {
      match this
      case Noun => "noun"
      case Verb => "verb"
      case Pronoun => "pronoun"
      case Adjective => "adjective"
      case Adverb => "adverb"
      case Preposition => "preposition"
      case Conjunction => "conjunction"
      case Numeral => "numeral"
    }
  }
}
