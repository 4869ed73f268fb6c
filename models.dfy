/**
 * The records the components pass around. Only the fields the modelled
 * operations read matter; the others are kept so the records read like the
 * application's own.
 */
module Models {
  import opened Wrappers

  datatype Category = Frontend | Backend | Database | DevOps | Tooling

  datatype Skill = Skill(name: string, logo: string, category: Category, color: string)

  datatype LearningPath = LearningPath(name: string, description: string, skillNames: seq<string>, color: string)

  datatype Quiz = Quiz(question: string, options: seq<string>, answer: string)

  datatype TopicDetails = TopicDetails(explanation: string, codeExample: string, quiz: Option<Quiz>)
}
