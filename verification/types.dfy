/** The records of the investigative workspace: entity categories, merged
    entities, uploaded case files and one document's extraction result. */
module Types {

  datatype Option<+T> = None | Some(value: T)

  /** The five entity categories (types.ts:3-9). */
  datatype EntityType = Person | Organization | Location | Date | Event

  /** A merged entity (types.ts:13-20). `category` is the source's `type`. */
  datatype Entity = Entity(
    id: string,
    name: string,
    category: EntityType,
    sourceDocIds: seq<string>,
    context: string,
    normalizedDate: Option<string>)

  /** Lifecycle of an uploaded document (types.ts:30). */
  datatype Status = Pending | Analyzing | Analyzed | Error

  /** An uploaded document (types.ts:22-31); `content` holds the summary once analyzed. */
  datatype CaseFile = CaseFile(
    id: string,
    name: string,
    mimeType: string,
    content: Option<string>,
    uploadDate: int,
    status: Status)

  /** One entity mention returned by the extraction service (types.ts:34-39). */
  datatype Mention = Mention(
    name: string,
    category: EntityType,
    context: string,
    normalizedDate: Option<string>)

  /** The extraction service's answer for one document (types.ts:33-41). */
  datatype AnalysisResult = AnalysisResult(entities: seq<Mention>, summary: string)

  /** JavaScript truthiness of an optional string: present and not empty. */
  predicate Truthy(s: Option<string>)
  {
    s.Some? && s.value != ""
  }
}
