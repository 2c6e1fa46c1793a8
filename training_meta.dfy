/** What a trained model reports about itself, shared by the claims server,
    the Streamlit prototype and the admin dashboard. */
module TrainingMeta {
  import opened Wrappers

  /** `{'timestamp': ..., 'training_count': len(df)}`. */
  datatype Meta = Meta(timestamp: string, trainingCount: nat)

  /** The model status document `{"active": ..., "meta": ...}`. */
  datatype ModelStatus = ModelStatus(active: bool, meta: Option<Meta>)
}
