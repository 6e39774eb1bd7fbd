/** hex-executor-console-backend/src/workflow/types.ts */
module WorkflowTypes {
  import opened Texts

  datatype WorkflowStep = WorkflowStep(id: Text, description: Text, maxAttempts: int)
  datatype WorkflowPlan = WorkflowPlan(goalId: Text, steps: seq<WorkflowStep>)
}
